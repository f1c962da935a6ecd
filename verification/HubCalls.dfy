/**
Registration of work with the hub: Hub.Call and ExecContext (hub/hub.go:250-284,
300-340; hub/exec.go:24-49). Every registration happens in the critical section
that checks `closing`, which is what lets Quiesce wait on the counter.

A release is two steps: the registration goes under h.mu, the counter after it. What
is between the two is `leaving`.
*/
module HubCalls {
  import opened Wrappers

  /** The fields of Hub under h.mu that Quiesce's wait depends on, its WaitGroup, and how
      many releases have let go of h.mu and not counted down yet. */
  datatype CallState = CallState(closing: bool, calls: set<nat>, nextCall: nat, inflight: int, leaving: nat)

  /** The counter is the number of registrations that are not yet released in full, and ids
      are never handed out twice. */
  ghost predicate CallsOk(s: CallState) {
    && s.inflight == |s.calls| + s.leaving
    && forall id :: id in s.calls ==> id < s.nextCall
  }

  function Register(s: CallState): (CallState, Option<nat>) {
    if s.closing then (s, None)
    else (s.(calls := s.calls + {s.nextCall}, nextCall := s.nextCall + 1, inflight := s.inflight + 1), Some(s.nextCall))
  }

  /** The first step of a release. */
  function Unregister(s: CallState, id: nat): CallState {
    s.(calls := s.calls - {id}, leaving := s.leaving + 1)
  }

  /** And the second. */
  function CountDown(s: CallState): CallState
    requires s.leaving > 0
  {
    s.(inflight := s.inflight - 1, leaving := s.leaving - 1)
  }

  lemma RegisterKeeps(s: CallState)
    requires CallsOk(s)
    ensures CallsOk(Register(s).0)
    ensures Register(s).1.Some? ==> Register(s).1.value !in s.calls
  {
    assert s.nextCall !in s.calls;
  }

  lemma ReleaseKeeps(s: CallState, id: nat)
    requires CallsOk(s)
    ensures id in s.calls ==> CallsOk(Unregister(s, id))
    ensures s.leaving > 0 ==> CallsOk(CountDown(s)) && CountDown(s).inflight >= 0
  {}

  // ── the objects ──────────────────────────────────────────────────────────

  datatype Class = Read | Other

  /** What Call answers before it runs anything, or the id it runs under. */
  datatype Admission = NotReady | UnknownOp | Forbidden | Admitted(id: nat)

  class Hub {
    var closing: bool
    var ops: map<string, Class>
    var calls: set<nat>
    var nextCall: nat
    var inflight: int
    ghost var leaving: nat

    ghost function State(): CallState
      reads this
    {
      CallState(closing, calls, nextCall, inflight, leaving)
    }

    constructor ()
      ensures CallsOk(State()) && State() == CallState(false, {}, 0, 0, 0) && ops == map[]
    {
      closing, ops, calls, nextCall, inflight, leaving := false, map[], {}, 0, 0, 0;
    }

    /** The critical section of Call: refused while closing, then for an op nobody
        registered, then for a caller that may only read; and registered otherwise. */
    method BeginCall(name: string, readOnly: bool) returns (r: Admission)
      requires CallsOk(State())
      modifies this
      ensures CallsOk(State()) && ops == old(ops)
      ensures r.NotReady? <==> old(closing)
      ensures r.UnknownOp? <==> !old(closing) && name !in ops
      ensures r.Forbidden? <==> !old(closing) && name in ops && readOnly && ops[name] != Read
      ensures if r.Admitted? then (State(), Some(r.id)) == Register(old(State())) else State() == old(State())
    {
      if closing {
        return NotReady;
      }
      if name !in ops {
        return UnknownOp;
      }
      if readOnly && ops[name] != Read {
        return Forbidden;
      }
      RegisterKeeps(State());
      r := Admitted(nextCall);
      calls := calls + {nextCall};
      nextCall := nextCall + 1;
      inflight := inflight + 1;
    }

    /** The critical section of ExecContext. */
    method BeginExec() returns (id: Option<nat>)
      requires CallsOk(State())
      modifies this
      ensures (State(), id) == Register(old(State())) && CallsOk(State()) && ops == old(ops)
    {
      RegisterKeeps(State());
      if closing {
        return None;
      }
      id := Some(nextCall);
      calls := calls + {nextCall};
      nextCall := nextCall + 1;
      inflight := inflight + 1;
    }

    /** delete(h.calls, id), under h.mu. */
    method Leave(id: nat)
      requires CallsOk(State()) && id in calls
      modifies this`calls, this`leaving
      ensures State() == Unregister(old(State()), id) && CallsOk(State())
    {
      ReleaseKeeps(State(), id);
      calls := calls - {id};
      leaving := leaving + 1;
    }

    /** h.inflight.Done(), after h.mu is released. */
    method Done()
      requires CallsOk(State()) && leaving > 0
      modifies this`inflight, this`leaving
      ensures State() == CountDown(old(State())) && CallsOk(State())
    {
      ReleaseKeeps(State(), 0);
      inflight := inflight - 1;
      leaving := leaving - 1;
    }

    /** Quiesce's first step; it answers whether this call is the one that quiesces,
        with the registrations to cancel. */
    method BeginQuiesce() returns (first: bool, cancels: set<nat>)
      requires CallsOk(State())
      modifies this
      ensures first == !old(closing) && cancels == (if first then calls else {})
      ensures State() == old(State()).(closing := true) && CallsOk(State()) && ops == old(ops)
    {
      if closing {
        return false, {};
      }
      closing := true;
      return true, calls;
    }
  }

  /** The func ExecContext returns: release, at most once. */
  class Execution {
    const hub: Hub
    const id: nat
    var released: bool

    ghost predicate Valid()
      reads this, hub
    {
      CallsOk(hub.State()) && (!released ==> id in hub.calls)
    }

    constructor (hub: Hub, id: nat)
      requires CallsOk(hub.State()) && id in hub.calls
      ensures this.hub == hub && this.id == id && !released && Valid()
    {
      this.hub, this.id, released := hub, id, false;
    }

    /** release: the first call releases the registration, later ones do nothing. */
    method ReleaseOnce()
      requires Valid()
      modifies this, hub
      ensures Valid() && released
      ensures hub.State() == if old(released) then old(hub.State()) else CountDown(Unregister(old(hub.State()), id))
    {
      if !released {
        released := true;
        hub.Leave(id);
        hub.Done();
      }
    }
  }

  // ── Quiesce's wait ───────────────────────────────────────────────────────

  /** The steps, in any interleaving of callers. */
  datatype Event = Begin | LeaveFor(id: nat) | Finish | Close

  function After(s: CallState, e: Event): CallState {
    match e
    case Begin => Register(s).0
    case LeaveFor(id) => if id in s.calls then Unregister(s, id) else s
    case Finish => if s.leaving > 0 then CountDown(s) else s
    case Close => s.(closing := true)
  }

  function Run(s: CallState, es: seq<Event>): CallState
    decreases |es|
  {
    if es == [] then s else Run(After(s, es[0]), es[1..])
  }

  /** What the steps of a run do: a call begins unless the hub is closing, one that is
      registered lets go of its registration and then of the counter, and closing is
      for good. */
  lemma StepsMean(s: CallState, id: nat)
    ensures !s.closing ==>
      After(s, Begin) == CallState(false, s.calls + {s.nextCall}, s.nextCall + 1, s.inflight + 1, s.leaving)
    ensures s.closing ==> After(s, Begin) == s
    ensures id in s.calls ==>
      After(s, LeaveFor(id)) == CallState(s.closing, s.calls - {id}, s.nextCall, s.inflight, s.leaving + 1)
    ensures s.leaving > 0 ==>
      After(s, Finish) == CallState(s.closing, s.calls, s.nextCall, s.inflight - 1, s.leaving - 1)
    ensures After(s, Close) == CallState(true, s.calls, s.nextCall, s.inflight, s.leaving)
  {}

  /** A caller is let in exactly while the hub is not closing, under an id that nobody has,
      and only the calls and their count tell. */
  lemma AdmitsUntilClosing(s: CallState)
    requires CallsOk(s)
    ensures var (s', id) := Register(s);
      && (id.None? <==> s.closing) && (id.None? ==> s' == s)
      && (id.Some? ==>
            && id.value !in s.calls && s'.calls == s.calls + {id.value}
            && s'.inflight == s.inflight + 1 && s'.leaving == s.leaving && !s'.closing
            && id.value < s'.nextCall)
  {}

  /** No id is handed out twice, however many callers come and go in between. */
  lemma {:induction false} IdsNeverRepeat(s: CallState, es: seq<Event>, id: nat)
    requires id < s.nextCall
    ensures id < Run(s, es).nextCall && Register(Run(s, es)).1 != Some(id)
    decreases |es|
  {
    if es != [] {
      IdsNeverRepeat(After(s, es[0]), es[1..], id);
    }
  }

  /** Over every run the counter is exact; and once closing is set, whatever comes,
      no registration is added, so what Quiesce waits for only shrinks. */
  lemma {:induction false} WaitOnlyShrinks(s: CallState, es: seq<Event>)
    requires CallsOk(s)
    ensures CallsOk(Run(s, es))
    ensures s.closing ==>
      Run(s, es).closing && Run(s, es).calls <= s.calls && Run(s, es).inflight <= s.inflight
    decreases |es|
  {
    if es != [] {
      RegisterKeeps(s);
      match es[0] {
        case LeaveFor(id) => ReleaseKeeps(s, id);
        case Finish => ReleaseKeeps(s, 0);
        case _ =>
      }
      WaitOnlyShrinks(After(s, es[0]), es[1..]);
    }
  }

  /** The wait ends exactly when every registration is gone and every release is through,
      and then nothing is registered again: the counter does not come back up. */
  lemma WaitEndsForGood(s: CallState, es: seq<Event>)
    requires CallsOk(s) && s.closing
    ensures s.inflight == 0 <==> s.calls == {} && s.leaving == 0
    ensures s.inflight == 0 ==> Run(s, es).inflight == 0 && Run(s, es).calls == {}
  {
    WaitOnlyShrinks(s, es);
    assert |s.calls| == 0 <==> s.calls == {};
  }
}
