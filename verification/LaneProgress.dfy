/**
What is queued on a lane is reached: how many steps of the drainer an accepted item still
waits for, at every moment of every run of `LaneProtocol`.

A step of the drainer is its goroutine starting, the end of a run, a wake-up, the idle
timer, or a look at the queue. That a run ends, and that the timer fires, is up to
the surroundings; which item is next is not.
*/
module LaneProgress {
  import opened Wrappers
  import opened Lanes
  import opened LaneProtocol
  import opened LaneInvariant
  import opened LaneTheorem

  predicate IsDrainerStep(e: Event) {
    e.Spawn? || e.TakeNext? || e.EndRun? || e.Wake? || e.Idle?
  }

  function DrainerSteps(es: seq<Event>): nat {
    if es == [] then 0 else (if IsDrainerStep(es[0]) then 1 else 0) + DrainerSteps(es[1..])
  }

  predicate Sweeps(es: seq<Event>) {
    exists i :: 0 <= i < |es| && es[i].QuiesceLane?
  }

  /** The n-th accepted item is still queued. */
  predicate Waits(s: State, n: nat) {
    |s.left| <= n < |s.accepted|
  }

  /** Whether the drainer of the lane in the map has a step to make before it looks. */
  function BeforeLook(s: State): nat {
    if s.cur.Some? && s.cur.value < |s.lanes| && s.lanes[s.cur.value].pc == AtNext then 0 else 1
  }

  /** The drainer's steps until the n-th accepted item is started: a look for each item up
      to it, a run's end between two looks, and what comes before the first. */
  function ToGo(s: State, n: nat): nat
    requires Waits(s, n)
  {
    2 * (n - |s.left|) + BeforeLook(s) + 1
  }

  /** The step the drainer makes next, if no timer is quicker. */
  function NextStep(s: State): Event {
    if s.cur.None? || s.cur.value >= |s.lanes| then SubGone
    else
      var l := s.cur.value;
      match s.lanes[l].pc
      case Unstarted => Spawn(s.lanes[l].owner)
      case AtNext => TakeNext(l)
      case Running(_, _) => EndRun(l)
      case _ => Wake(l)
  }

  lemma LiveLane(s: State, n: nat)
    requires Inv(s) && Waits(s, n)
    ensures s.cur.Some? && s.cur.value < |s.lanes|
    ensures
      var l := s.cur.value;
      && s.lanes[l].st.q == Pending(s) && |Pending(s)| == |s.accepted| - |s.left|
      && !s.lanes[l].st.retired && !s.lanes[l].st.quiesced && LaneRecOk(s, l)
  {
    assert LaneRecOk(s, s.cur.value);
  }

  /** While an item waits, the drainer has a step to make. */
  lemma DrainerCanStep(s: State, n: nat)
    requires Inv(s) && Waits(s, n)
    ensures IsDrainerStep(NextStep(s)) && Enabled(s, NextStep(s))
  {
    LiveLane(s, n);
  }

  /** No lane but the one in the map has a drainer that has not stopped. */
  lemma StepsAreCurrent(s: State, e: Event)
    requires Struct(s) && Enabled(s, e)
    ensures e.TakeNext? || e.EndRun? || e.Wake? || e.Idle? ==> s.cur == Some(e.l)
    ensures e.Spawn? ==> s.cur == Some(s.calls[e.c].pc.lane) && s.lanes[s.calls[e.c].pc.lane].pc == Unstarted
  {
    match e
    case TakeNext(l) => assert LaneRecOk(s, l);
    case EndRun(l) => assert LaneRecOk(s, l);
    case Wake(l) => assert LaneRecOk(s, l);
    case Idle(l) => assert LaneRecOk(s, l);
    case Spawn(c) =>
      assert CallOk(s, c);
      assert LaneRecOk(s, s.calls[c].pc.lane);
    case _ =>
  }

  /** There are few steps to go, for the queue is bounded. */
  lemma FewToGo(s: State, n: nat)
    requires Inv(s) && Waits(s, n)
    ensures 1 <= ToGo(s, n) <= 2 * LANE_MAX_ITEMS
  {
    LiveLane(s, n);
  }

  lemma LookNears(s: State, l: nat, n: nat)
    requires Inv(s) && Waits(s, n) && Enabled(s, TakeNext(l))
    ensures var s' := After(s, TakeNext(l));
      && s'.accepted == s.accepted && s'.left == s.left + [Started(s.accepted[|s.left|])]
      && if Waits(s', n) then ToGo(s', n) == ToGo(s, n) - 1 else ToGo(s, n) == 1
  {
    hide Hist, Struct, Swept, Apart, RepliesOk, LaneOk, LaneRecOk;
    LiveLane(s, n);
    StepsAreCurrent(s, TakeNext(l));
    FirstPending(s);
  }

  lemma FirstPending(s: State)
    requires Hist(s) && Pending(s) != []
    ensures |s.left| < |s.accepted| && s.accepted[|s.left|] == Pending(s)[0]
  {}

  /** Every step of the drainer brings a waiting item one step nearer, or starts it. */
  lemma DrainerNears(s: State, e: Event, n: nat)
    requires Inv(s) && Waits(s, n) && Enabled(s, e) && IsDrainerStep(e)
    ensures var s' := After(s, e);
      && s'.accepted == s.accepted
      && (s'.left == s.left || s'.left == s.left + [Started(s.accepted[|s.left|])])
      && if Waits(s', n) then ToGo(s', n) == ToGo(s, n) - 1 else ToGo(s, n) == 1
  {
    hide Hist, Struct, Swept, Apart, RepliesOk, LaneOk, LaneRecOk;
    if e.TakeNext? {
      LookNears(s, e.l, n);
    } else {
      LiveLane(s, n);
      StepsAreCurrent(s, e);
    }
  }

  /** No other step puts it farther back; only a sweep takes it away. */
  lemma OthersKeepPlace(s: State, e: Event, n: nat)
    requires Inv(s) && Waits(s, n) && Enabled(s, e) && !IsDrainerStep(e)
    ensures var s' := After(s, e);
      && s.accepted <= s'.accepted
      && (!e.QuiesceLane? ==> s'.left == s.left)
      && (Waits(s', n) ==> ToGo(s', n) == ToGo(s, n))
  {
    hide Hist, Struct, Swept, Apart, RepliesOk, LaneOk;
    LiveLane(s, n);
    if e.QuiesceLane? {
      QuiesceTakesPending(s, e.l);
    } else {
      LiveStays(s, e);
    }
  }

  /** The steps of calls, of the Sub and of stopped drainers leave the live lane's drainer
      where it is. */
  lemma LiveStays(s: State, e: Event)
    requires Struct(s) && Enabled(s, e) && !IsDrainerStep(e)
    requires s.cur.Some? && s.cur.value < |s.lanes| && !s.lanes[s.cur.value].st.retired
    ensures After(s, e).cur == s.cur && s.cur.value < |After(s, e).lanes|
    ensures BeforeLook(After(s, e)) == BeforeLook(s)
  {
    hide LaneOk;
    match e
    case DropRetired(c) => assert CallOk(s, c);
    case Install(c) => assert CallOk(s, c);
    case LeaveSub(k) => assert LaneRecOk(s, k);
    case MarkRetired(k) => assert LaneRecOk(s, k);
    case LeaveHub(k) => assert LaneRecOk(s, k);
    case _ =>
  }

  lemma LeftGrows(s: State, e: Event)
    requires Inv(s) && Enabled(s, e)
    ensures s.left <= After(s, e).left
  {}

  lemma {:induction false} LeftGrowsOverRuns(s: State, es: seq<Event>)
    requires Inv(s) && IsRun(s, es)
    ensures s.left <= Final(s, es).left
    decreases |es|
  {
    hide After, Inv;
    if es != [] {
      LeftGrows(s, es[0]);
      InvOverRuns(s, [es[0]]);
      assert Final(s, [es[0]]) == After(s, es[0]);
      LeftGrowsOverRuns(After(s, es[0]), es[1..]);
    }
  }

  /** In every run, an accepted item has left its queue once the drainer has made the steps
      that were to go, whatever happened between them; and without a sweep it is started
      by exactly the last of those steps, neither later nor earlier. */
  lemma {:induction false} QueuedIsReached(s: State, es: seq<Event>, n: nat)
    requires Inv(s) && Waits(s, n) && IsRun(s, es)
    ensures var s' := Final(s, es);
      && (DrainerSteps(es) >= ToGo(s, n) ==> n < |s'.left|)
      && (!Sweeps(es) ==> (n < |s'.left| <==> DrainerSteps(es) >= ToGo(s, n)))
      && (!Sweeps(es) && n < |s'.left| ==> s'.left[n] == Started(s.accepted[n]))
    decreases |es|
  {
    hide After, Inv, ToGo, Enabled;
    FewToGo(s, n);
    if es != [] {
      var e, rest := es[0], es[1..];
      var s1 := After(s, e);
      InvOverRuns(s, [e]);
      assert Final(s, [e]) == s1;
      if IsDrainerStep(e) {
        DrainerNears(s, e, n);
      } else {
        OthersKeepPlace(s, e, n);
      }
      assert Sweeps(es) <==> e.QuiesceLane? || Sweeps(rest) by {
        assert forall i :: 0 <= i < |rest| ==> rest[i] == es[i + 1];
      }
      if Waits(s1, n) {
        QueuedIsReached(s1, rest, n);
      } else {
        LeftGrowsOverRuns(s1, rest);
      }
    }
  }

  /** Whatever has been accepted by some moment has left its queue after as many steps of the
      drainer as a full queue takes. */
  lemma ReachedWithin(es: seq<Event>, more: seq<Event>, n: nat)
    requires IsRun(INITIAL, es) && IsRun(Final(INITIAL, es), more)
    requires n < |Final(INITIAL, es).accepted| && DrainerSteps(more) >= 2 * LANE_MAX_ITEMS
    ensures n < |Final(Final(INITIAL, es), more).left|
  {
    hide Inv, After, ToGo, Enabled;
    var s := Final(INITIAL, es);
    InitialInv();
    InvOverRuns(INITIAL, es);
    if Waits(s, n) {
      FewToGo(s, n);
      QueuedIsReached(s, more, n);
    } else {
      LeftGrowsOverRuns(s, more);
    }
  }
}
