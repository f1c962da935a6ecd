/**
The control panel's ledger (mux/control.go:164-330, 378-393, 538-727, 769-922).

`sent` counts what a controller asked for and `observed` what magmux saw finish.
Times and durations are not part of this model.
*/
module ControlLedger {
  import opened InputKey

  const MAX_STEPS := 64
  const MAX_SIGNALS := 400
  const MAX_ROUTES := 32

  /** One instruction and the turn it asked for; the state is empty while in flight. */
  datatype Entry = Entry(n: nat, tag: string, text: string, tool: string, state: string, reply: string)

  datatype Route = Route(
    sent: nat, observed: nat, steps: int, title: string, goal: string, state: string, tool: string,
    isClosed: bool, steplog: seq<Entry>)

  datatype Ack = Unanswered | Answered(ok: bool, code: string, text: string)

  datatype Signal = Signal(
    no: nat, pane: int, dir: string, verb: string, text: string, tool: string, state: string, turn: bool, ack: Ack)

  predicate IsDone(e: Entry) {
    e.state != ""
  }

  function Done(log: seq<Entry>): nat {
    if log == [] then 0 else Done(log[..|log| - 1]) + if IsDone(log[|log| - 1]) then 1 else 0
  }

  lemma {:induction false} DoneSuffix(log: seq<Entry>, k: nat)
    requires k <= |log|
    ensures Done(log[k..]) <= Done(log)
    decreases |log|
  {
    if k < |log| {
      var init := log[..|log| - 1];
      assert log[k..][..|log| - k - 1] == init[k..];
      DoneSuffix(init, k);
    } else {
      assert log[k..] == [];
    }
  }

  function Newest<T>(s: seq<T>, max: nat): seq<T> {
    if |s| > max then s[|s| - max..] else s
  }

  /** The ledger holds the newest steps, numbered up to the last one sent; no more of
      them are done than were observed, and no more were observed than sent. */
  predicate RouteOk(r: Route) {
    && Done(r.steplog) <= r.observed <= r.sent
    && |r.steplog| <= MAX_STEPS && |r.steplog| <= r.sent
    && forall i :: 0 <= i < |r.steplog| ==> r.steplog[i].n == r.sent - |r.steplog| + 1 + i
  }

  // ── the route table ──────────────────────────────────────────────────────

  predicate Ascending(s: seq<int>) {
    forall i, j :: 0 <= i < j < |s| ==> s[i] < s[j]
  }

  /** A sorted list with one more: what appending it and sorting gives. */
  function Insert(s: seq<int>, x: int): seq<int> {
    if s == [] || x <= s[0] then [x] + s else [s[0]] + Insert(s[1..], x)
  }

  lemma {:induction false} InsertSorts(s: seq<int>, x: int)
    requires Ascending(s) && x !in s
    ensures Ascending(Insert(s, x)) && |Insert(s, x)| == |s| + 1
    ensures forall y :: y in Insert(s, x) <==> y == x || y in s
  {
    if s != [] && x > s[0] {
      InsertSorts(s[1..], x);
      var t := Insert(s[1..], x);
      assert forall y :: y in s <==> y == s[0] || y in s[1..];
      forall i | 0 <= i < |t| ensures s[0] < t[i] {
        assert t[i] in t;
      }
    }
  }

  datatype Counter = SentCount | ObservedCount

  function Count(routes: map<int, Route>, p: int, k: Counter): nat {
    if p !in routes then 0 else if k == SentCount then routes[p].sent else routes[p].observed
  }

  function Sum(order: seq<int>, routes: map<int, Route>, k: Counter): nat {
    if order == [] then 0 else Count(routes, order[0], k) + Sum(order[1..], routes, k)
  }

  lemma {:induction false} SumSame(order: seq<int>, a: map<int, Route>, b: map<int, Route>, k: Counter)
    requires forall i :: 0 <= i < |order| ==> Count(a, order[i], k) == Count(b, order[i], k)
    ensures Sum(order, a, k) == Sum(order, b, k)
  {
    if order != [] {
      SumSame(order[1..], a, b, k);
    }
  }

  lemma {:induction false} SumInsert(order: seq<int>, x: int, routes: map<int, Route>, k: Counter)
    ensures Sum(Insert(order, x), routes, k) == Sum(order, routes, k) + Count(routes, x, k)
  {
    if order != [] && x > order[0] {
      SumInsert(order[1..], x, routes, k);
      assert Insert(order, x)[1..] == Insert(order[1..], x);
    } else {
      assert ([x] + order)[1..] == order;
    }
  }

  /** One route counts n more. */
  lemma {:induction false} SumRaised(order: seq<int>, x: int, a: map<int, Route>, r: Route, k: Counter, n: nat)
    requires Ascending(order) && x in order && x in a
    requires Count(a[x := r], x, k) == Count(a, x, k) + n
    ensures Sum(order, a[x := r], k) == Sum(order, a, k) + n
  {
    if order[0] == x {
      SumSame(order[1..], a, a[x := r], k);
    } else {
      SumRaised(order[1..], x, a, r, k, n);
    }
  }

  lemma {:induction false} SumAtMost(order: seq<int>, routes: map<int, Route>)
    requires forall p :: p in routes ==> RouteOk(routes[p])
    ensures Sum(order, routes, ObservedCount) <= Sum(order, routes, SentCount)
  {
    if order != [] {
      SumAtMost(order[1..], routes);
    }
  }

  // ── the filter ring ──────────────────────────────────────────────────────

  /** Go's remainder, which has the dividend's sign. */
  function Rem(a: int, b: int): int
    requires b > 0
  {
    if a >= 0 then a % b else -(-a % b)
  }

  /** Where the filter stands on the ring: a route's position, or the end for all. */
  function Position(order: seq<int>, filter: int): (k: nat)
    ensures k <= |order|
    ensures k < |order| ==> order[k] == filter
    ensures k == |order| ==> filter !in order
  {
    if order == [] then 0 else if order[0] == filter then 0 else 1 + Position(order[1..], filter)
  }

  function Turned(at: nat, delta: int, n: nat): int {
    Rem(Rem(at + delta, n + 1) + (n + 1), n + 1)
  }

  /** The filter after a step of delta. */
  function Cycled(order: seq<int>, filter: int, delta: int): int {
    var n := |order|;
    var at := Turned(Position(order, filter), delta, n);
    if 0 <= at < n then order[at] else -1
  }

  lemma MultipleWithin(k: int, m: int)
    requires m > 0
    ensures k >= 1 ==> k * m >= m
    ensures k <= -1 ==> k * m <= -m
  {}

  /** The one remainder there is. */
  lemma ModIs(x: int, q: int, r: int, m: int)
    requires 0 <= r < m && x == q * m + r
    ensures x % m == r
  {
    var d := x / m - q;
    assert x == x / m * m + x % m;
    assert d * m == x / m * m - q * m;
    MultipleWithin(d, m);
    assert d == 0;
  }

  lemma ModShift(a: int, q: int, m: int)
    requires m > 0
    ensures (a + q * m) % m == a % m
  {
    var k := a / m;
    assert a == k * m + a % m;
    assert a + q * m == (k + q) * m + a % m;
    ModIs(a + q * m, k + q, a % m, m);
  }

  /** Remainder, shift, remainder again is the Euclidean one. */
  lemma RemTwice(x: int, m: int)
    requires m > 0
    ensures Rem(Rem(x, m) + m, m) == x % m
  {
    if x >= 0 {
      ModShift(x % m, 1, m);
      ModIs(x % m, 0, x % m, m);
    } else {
      var s, q := -x % m, -x / m;
      assert -x == q * m + s;
      if s == 0 {
        ModIs(x, -q, 0, m);
        ModIs(m, 1, 0, m);
      } else {
        assert (-q - 1) * m == -(q * m) - m;
        ModIs(x, -q - 1, m - s, m);
        ModIs(m - s, 0, m - s, m);
      }
    }
  }

  lemma TurnedIs(at: nat, delta: int, n: nat)
    ensures Turned(at, delta, n) == (at + delta) % (n + 1)
  {
    RemTwice(at + delta, n + 1);
  }

  lemma ModBack(at: int, delta: int, m: int)
    requires 0 <= at < m
    ensures ((at + delta) % m - delta) % m == at
  {
    var q := (at + delta) / m;
    assert at + delta == q * m + (at + delta) % m;
    assert -q * m == -(q * m);
    ModShift(at, -q, m);
    ModIs(at, 0, at, m);
  }

  lemma PositionOf(order: seq<int>, k: nat)
    requires Ascending(order) && k < |order|
    ensures Position(order, order[k]) == k
  {
    assert order[k] in order;
  }

  /** A step and the step back return to the same view. */
  lemma CycleUndone(order: seq<int>, filter: int, delta: int)
    requires Ascending(order) && forall p :: p in order ==> p >= 0
    ensures Cycled(order, Cycled(order, filter, delta), -delta) == if filter in order then filter else -1
  {
    hide Turned;
    var n, k := |order|, Position(order, filter);
    TurnedIs(k, delta, n);
    var at := (k + delta) % (n + 1);
    if at < n {
      PositionOf(order, at);
    } else {
      assert -1 !in order;
    }
    TurnedIs(at, -delta, n);
    ModBack(k, delta, n + 1);
  }

  // ── the signals ──────────────────────────────────────────────────────────

  /** The newest signals, numbered without a gap up to seq. */
  predicate SignalsOk(signals: seq<Signal>, last: nat) {
    && |signals| <= MAX_SIGNALS && |signals| <= last
    && forall i :: 0 <= i < |signals| ==> signals[i].no == last - |signals| + 1 + i
  }

  // ── the panel ────────────────────────────────────────────────────────────

  class ControlPanel {
    var goal: string
    var client: string
    var model: string
    var steps: int
    var sent: nat
    var observed: nat
    var state: string
    var routes: map<int, Route>
    var routeOrder: seq<int>
    var signals: seq<Signal>
    var lastSeq: nat
    var filter: int
    var scroll: int

    ghost predicate TableOk()
      reads this`routes, this`routeOrder
    {
      && Ascending(routeOrder) && |routeOrder| <= MAX_ROUTES
      && (forall p :: p in routes <==> p in routeOrder)
      && (forall p :: p in routes ==> p >= 0 && RouteOk(routes[p]))
    }

    /** Per route, done <= observed <= sent; over the run, what was observed is what the
        routes observed, and what the routes sent was sent. */
    ghost predicate CountsOk()
      reads this`routes, this`routeOrder, this`sent, this`observed
    {
      observed == Sum(routeOrder, routes, ObservedCount) && Sum(routeOrder, routes, SentCount) <= sent
    }

    ghost predicate Valid()
      reads this
    {
      TableOk() && CountsOk() && SignalsOk(signals, lastSeq) && (filter < 0 || filter in routes)
    }

    constructor ()
      ensures Valid() && sent == 0 && observed == 0 && routes == map[] && filter == -1
    {
      goal, client, model, steps, state := "", "", "", 0, "";
      sent, observed, routes, routeOrder := 0, 0, map[], [];
      signals, lastSeq, filter, scroll := [], 0, -1, 0;
    }

    /** Nothing is observed that was not sent. */
    lemma ObservedWithinSent()
      requires Valid()
      ensures observed <= sent
    {
      SumAtMost(routeOrder, routes);
    }

    // ── touching a pane ────────────────────────────────────────────────────

    /** routeLocked: whether the pane has a row, and a new row if there is room. */
    method TouchRoute(pane: int) returns (ok: bool)
      requires Valid()
      modifies this`routes, this`routeOrder
      ensures Valid()
      ensures ok <==> pane in routes
      ensures routes == Touched(old(routes), pane, steps)
      ensures Sum(routeOrder, routes, SentCount) == old(Sum(routeOrder, routes, SentCount))
    {
      KeysCounted(routeOrder, routes);
      if pane < 0 {
        return false;
      }
      if pane in routes {
        return true;
      }
      if |routes| >= MAX_ROUTES {
        return false;
      }
      AddRoute(pane);
      ok := true;
    }

    method AddRoute(pane: nat)
      requires Valid() && pane !in routes && |routeOrder| < MAX_ROUTES
      modifies this`routes, this`routeOrder
      ensures Valid() && routes == old(routes)[pane := NewRoute(steps)]
      ensures Sum(routeOrder, routes, SentCount) == old(Sum(routeOrder, routes, SentCount))
    {
      hide RouteOk, SignalsOk, Sum;
      NewRouteOk(steps, "");
      ghost var before, order := routes, routeOrder;
      InsertSorts(routeOrder, pane);
      routes := routes[pane := NewRoute(steps)];
      routeOrder := Insert(routeOrder, pane);
      SumInsert(order, pane, routes, ObservedCount);
      SumInsert(order, pane, routes, SentCount);
      SumSame(order, before, routes, ObservedCount);
      SumSame(order, before, routes, SentCount);
    }

    /** A route changes in nothing that is counted. */
    method SetRoute(pane: int, r: Route)
      requires Valid() && pane in routes && RouteOk(r)
      requires r.sent == routes[pane].sent && r.observed == routes[pane].observed
      modifies this`routes
      ensures Valid() && routes == old(routes)[pane := r]
    {
      ghost var before := routes;
      routes := routes[pane := r];
      SumSame(routeOrder, before, routes, ObservedCount);
      SumSame(routeOrder, before, routes, SentCount);
    }

    // ── the stream ─────────────────────────────────────────────────────────

    method AppendSignal(sig: Signal) returns (no: nat)
      requires Valid()
      modifies this`signals, this`lastSeq
      ensures Valid()
      ensures no == old(lastSeq) + 1 == lastSeq
      ensures signals == Newest(old(signals) + [sig.(no := no)], MAX_SIGNALS)
    {
      lastSeq := lastSeq + 1;
      signals := signals + [sig.(no := lastSeq)];
      if |signals| > MAX_SIGNALS {
        signals := signals[|signals| - MAX_SIGNALS..];
      }
      no := lastSeq;
    }

    // ── what the controller says ───────────────────────────────────────────

    /** A start that names a pane begins a new run; one that names none is an identity
        and leaves every count and row alone. */
    method RecordStart(pane: int, goal: string, model: string, client: string, steps: int)
      requires Valid()
      modifies this
      ensures Valid() && lastSeq == old(lastSeq)
      ensures pane < 0 ==>
        && sent == old(sent) && observed == old(observed) && routes == old(routes) && routeOrder == old(routeOrder)
        && signals == old(signals) && filter == old(filter)
        && this.client == client
        && this.goal == (if goal != "" then goal else old(this.goal))
        && this.model == (if model != "" then model else old(this.model))
        && this.steps == (if steps > 0 then steps else old(this.steps))
      ensures pane >= 0 ==>
        && sent == 0 && observed == 0 && signals == [] && filter == -1
        && routes == map[pane := NewRoute(steps).(goal := goal)]
        && this.client == client && this.goal == goal && this.model == model && this.steps == steps
    {
      hide RouteOk, SignalsOk, Ascending, Insert, Sum;
      if pane < 0 {
        this.client := client;
        this.goal := if goal != "" then goal else this.goal;
        this.model := if model != "" then model else this.model;
        this.steps := if steps > 0 then steps else this.steps;
        return;
      }
      this.goal, this.model, this.client, this.steps := goal, model, client, steps;
      Clear();
      var ok := TouchRoute(pane);
      if ok {
        NewRouteOk(steps, goal);
        SetRoute(pane, routes[pane].(goal := goal));
      }
    }

    /** The last run's rows, counts and stream go; the numbering of signals goes on. */
    method Clear()
      modifies this`routes, this`routeOrder, this`signals, this`sent, this`observed, this`filter
      ensures Valid() && routes == map[] && signals == [] && sent == 0 && observed == 0 && filter == -1
    {
      routes, routeOrder, signals := map[], [], [];
      sent, observed, filter := 0, 0, -1;
    }

    method RecordRouteOpened(pane: int, title: string)
      requires Valid()
      modifies this`routes, this`routeOrder
      ensures Valid()
      ensures var t := Touched(old(routes), pane, steps);
        routes == if pane in t && title != "" then t[pane := t[pane].(title := title)] else t
    {
      var ok := TouchRoute(pane);
      if ok && title != "" {
        SetRoute(pane, routes[pane].(title := title));
      }
    }

    /** A closed pane keeps its row and its ledger. */
    method RecordRouteClosed(pane: int)
      requires Valid()
      modifies this`routes, this`routeOrder
      ensures Valid()
      ensures var t := Touched(old(routes), pane, steps);
        routes == if pane in t then t[pane := t[pane].(isClosed := true, state := "gone")] else t
    {
      var ok := TouchRoute(pane);
      if ok {
        SetRoute(pane, routes[pane].(isClosed := true, state := "gone"));
      }
    }

    method RecordRequest(pane: int, verb: string, text: string) returns (no: nat)
      requires Valid()
      modifies this`routes, this`routeOrder, this`signals, this`lastSeq
      ensures Valid() && no == lastSeq == old(lastSeq) + 1
      ensures routes == Touched(old(routes), pane, steps)
      ensures signals ==
        Newest(old(signals) + [Signal(no, pane, "out", verb, text, "", "", false, Unanswered)], MAX_SIGNALS)
    {
      var _ := TouchRoute(pane);
      no := AppendSignal(Signal(0, pane, "out", verb, text, "", "", false, Unanswered));
    }

    /** An answer marks the one row it answers, if that is still there; it changes no
        count, and closes no turn. */
    method RecordAck(seqNo: nat, ok: bool, code: string, text: string)
      requires Valid()
      modifies this`signals
      ensures Valid() && |signals| == |old(signals)|
      ensures forall i :: 0 <= i < |signals| ==>
        signals[i] ==
          if seqNo != 0 && old(signals)[i].no == seqNo then old(signals)[i].(ack := Answered(ok, code, text))
          else old(signals)[i]
    {
      if seqNo == 0 {
        return;
      }
      var i := |signals| - 1;
      while i >= 0
        invariant -1 <= i < |signals| && signals == old(signals)
        invariant forall j :: i < j < |signals| ==> signals[j].no != seqNo
      {
        if signals[i].no == seqNo {
          signals := signals[i := signals[i].(ack := Answered(ok, code, text))];
          return;
        }
        i := i - 1;
      }
    }

    method NoteController(here: bool)
      requires Valid()
      modifies this`signals, this`lastSeq
      ensures Valid() && lastSeq == old(lastSeq) + 1
    {
      var text := if here then "controller connected" else "controller disconnected";
      var _ := AppendSignal(Signal(0, -1, "note", "controller", text, "", "", false, Unanswered));
    }

    /** An instruction: one more sent, and one more open step on its pane's ledger. */
    method RecordSend(pane: int, tag: string, text: string) returns (no: nat)
      requires Valid()
      modifies this`sent, this`state, this`routes, this`routeOrder, this`signals, this`lastSeq
      ensures Valid() && no == lastSeq == old(lastSeq) + 1
      ensures sent == old(sent) + 1 && state == "working"
      ensures var t := Touched(old(routes), pane, steps);
        routes == if pane in t then t[pane := WithStep(t[pane], tag, text)] else t
      ensures
        var verb := if tag == "" then "send" else tag;
        signals == Newest(old(signals) + [Signal(no, pane, "out", verb, text, "", "", false, Unanswered)], MAX_SIGNALS)
    {
      hide RouteOk, SignalsOk, Ascending, Sum, WithStep, Newest;
      sent := sent + 1;
      state := "working";
      var ok := TouchRoute(pane);
      if ok {
        AddStep(pane, tag, text);
      }
      var verb := if tag == "" then "send" else tag;
      no := AppendSignal(Signal(0, pane, "out", verb, text, "", "", false, Unanswered));
    }

    method AddStep(pane: int, tag: string, text: string)
      requires Valid() && pane in routes && Sum(routeOrder, routes, SentCount) < sent
      modifies this`routes
      ensures Valid()
      ensures routes == old(routes)[pane := WithStep(old(routes)[pane], tag, text)]
    {
      ghost var before := routes;
      var r := routes[pane];
      StepKeepsRoute(r, tag, text);
      routes := routes[pane := WithStep(r, tag, text)];
      SumSame(routeOrder, before, routes, ObservedCount);
      SumRaised(routeOrder, pane, before, WithStep(r, tag, text), SentCount, 1);
    }

    // ── what magmux sees ───────────────────────────────────────────────────

    /** A state seen on a pane. Only a pane the controller has touched counts, and only
        a settled state while more was sent to that pane than observed there: then one
        more is observed, on the route and over the run alike. */
    method RecordObserved(pane: int, state: string, response: string, tool: string)
      requires Valid()
      modifies this`observed, this`state, this`routes, this`signals, this`lastSeq
      ensures Valid() && routes.Keys == old(routes).Keys
      ensures pane !in old(routes) ==> unchanged(this)
      ensures forall p :: p in routes && p != pane ==> routes[p] == old(routes)[p]
      ensures pane in old(routes) ==>
        var was := old(routes)[pane];
        var counts := Settles(state) && was.sent > was.observed;
        && routes[pane] == Seen(was, state, response, tool) && this.state == state
        && observed == old(observed) + (if counts then 1 else 0)
        && (if (Settles(state) && (counts || state != "awaiting_input")) || was.state != state then
              && lastSeq == old(lastSeq) + 1
              && var sig := Signal(lastSeq, pane, "in", state, response, tool, state, counts, Unanswered);
                 signals == Newest(old(signals) + [sig], MAX_SIGNALS)
            else
              lastSeq == old(lastSeq) && signals == old(signals))
    {
      if pane !in routes {
        return;
      }
      var r := routes[pane];
      this.state := state;
      var outstanding := r.sent > r.observed;
      var logIt := (state == "awaiting_input" && outstanding) || state == "error" || state == "awaiting_permission";
      var counts := logIt && outstanding;
      hide RouteOk, SignalsOk, Ascending, Seen, Sum, Newest;
      SeenKeepsRoute(r, state, response, tool);
      FileSeen(pane, Seen(r, state, response, tool), if counts then 1 else 0, logIt || r.state != state,
               Signal(0, pane, "in", state, response, tool, state, counts, Unanswered));
    }

    method FileSeen(pane: int, r: Route, n: nat, logged: bool, sig: Signal)
      requires Valid() && pane in routes && RouteOk(r)
      requires r.sent == routes[pane].sent && r.observed == routes[pane].observed + n
      modifies this`observed, this`routes, this`signals, this`lastSeq
      ensures Valid() && routes == old(routes)[pane := r] && observed == old(observed) + n
      ensures lastSeq == old(lastSeq) + if logged then 1 else 0
      ensures signals == if logged then Newest(old(signals) + [sig.(no := lastSeq)], MAX_SIGNALS) else old(signals)
    {
      hide RouteOk, SignalsOk, Ascending, Sum, Newest;
      CountObserved(pane, r, n);
      if logged {
        var _ := AppendSignal(sig);
      }
    }

    method CountObserved(pane: int, r: Route, n: nat)
      requires Valid() && pane in routes && RouteOk(r)
      requires r.sent == routes[pane].sent && r.observed == routes[pane].observed + n
      modifies this`routes, this`observed
      ensures Valid() && routes == old(routes)[pane := r] && observed == old(observed) + n
    {
      ghost var before := routes;
      routes := routes[pane := r];
      observed := observed + n;
      SumSame(routeOrder, before, routes, SentCount);
      SumRaised(routeOrder, pane, before, r, ObservedCount, n);
    }

    // ── the view ───────────────────────────────────────────────────────────

    /** A pane without a row is refused; any negative number is taken as it is, and -1 is
        the only one callers use for all routes. */
    method SetFilter(pane: int) returns (ok: bool)
      requires Valid()
      modifies this`filter, this`scroll
      ensures Valid()
      ensures ok <==> pane < 0 || pane in routes
      ensures filter == if ok then pane else old(filter)
      ensures ok ==> (filter == -1 || filter in routes <==> pane >= -1)
    {
      if pane >= 0 && pane !in routes {
        return false;
      }
      filter, scroll := pane, 0;
      ok := true;
    }

    method CycleFilter(delta: int) returns (ok: bool)
      requires Valid()
      modifies this`filter, this`scroll
      ensures Valid()
      ensures ok <==> routes != map[]
      ensures filter == if ok then Cycled(routeOrder, old(filter), delta) else old(filter)
      ensures ok ==> filter == -1 || filter in routes
    {
      hide RouteOk, SignalsOk, Sum, Turned;
      var n := |routeOrder|;
      KeysCounted(routeOrder, routes);
      if n == 0 {
        return false;
      }
      var at := PositionIn(routeOrder, filter);
      TurnedWithin(at, delta, n);
      at := Turned(at, delta, n);
      filter := if at == n then -1 else routeOrder[at];
      scroll := 0;
      ok := true;
    }
  }

  method PositionIn(order: seq<int>, filter: int) returns (at: int)
    ensures at == Position(order, filter)
  {
    at := |order|;
    for i := 0 to |order|
      invariant at == |order|
      invariant Position(order, filter) == i + Position(order[i..], filter)
    {
      if order[i] == filter {
        return i;
      }
    }
  }

  lemma TurnedWithin(at: nat, delta: int, n: nat)
    ensures 0 <= Turned(at, delta, n) <= n
  {
    TurnedIs(at, delta, n);
  }

  // ── a route's steps ──────────────────────────────────────────────────────

  function StepTag(r: Route, tag: string): string {
    if tag != "" then tag
    else if r.steps > 0 then "step " + Itoa(r.sent + 1) + "/" + Itoa(r.steps)
    else "step " + Itoa(r.sent + 1)
  }

  function WithStep(r: Route, tag: string, text: string): Route {
    var e := Entry(r.sent + 1, StepTag(r, tag), text, "", "", "");
    r.(sent := r.sent + 1, state := "working", steplog := Newest(r.steplog + [e], MAX_STEPS))
  }

  /** The routes after a pane is touched: a row for it, if there is room. */
  function Touched(routes: map<int, Route>, pane: int, steps: int): map<int, Route> {
    if pane < 0 || pane in routes || |routes| >= MAX_ROUTES then routes else routes[pane := NewRoute(steps)]
  }

  /** A step sent stays open until something is observed: it is the last of the ledger,
      numbered by the count of steps sent. */
  lemma StepIs(r: Route, tag: string, text: string)
    ensures var r' := WithStep(r, tag, text);
      && r'.sent == r.sent + 1 && r'.observed == r.observed
      && r'.steplog != [] && !IsDone(r'.steplog[|r'.steplog| - 1])
      && r'.steplog[|r'.steplog| - 1].n == r'.sent && r'.steplog[|r'.steplog| - 1].text == text
  {}

  lemma NewRouteOk(steps: int, goal: string)
    ensures RouteOk(NewRoute(steps)) && RouteOk(NewRoute(steps).(goal := goal))
  {}

  lemma OpenStepAdds(log: seq<Entry>, e: Entry)
    requires e.state == ""
    ensures Done(log + [e]) == Done(log)
  {
    assert (log + [e])[..|log|] == log;
  }

  lemma StepKeepsRoute(r: Route, tag: string, text: string)
    requires RouteOk(r)
    ensures RouteOk(WithStep(r, tag, text))
  {
    hide StepTag, IsDone;
    var e := Entry(r.sent + 1, StepTag(r, tag), text, "", "", "");
    var log := r.steplog + [e];
    assert log[..|log| - 1] == r.steplog;
    OpenStepAdds(r.steplog, e);
    assert forall i :: 0 <= i < |log| ==> log[i].n == r.sent + 1 - |log| + 1 + i;
    NewestNumbered(log, r.sent + 1);
  }

  lemma NewestNumbered(log: seq<Entry>, last: nat)
    requires |log| <= last && forall i :: 0 <= i < |log| ==> log[i].n == last - |log| + 1 + i
    ensures var kept := Newest(log, MAX_STEPS);
      && |kept| <= MAX_STEPS && |kept| <= last && Done(kept) <= Done(log)
      && forall i :: 0 <= i < |kept| ==> kept[i].n == last - |kept| + 1 + i
  {
    hide Done;
    if |log| > MAX_STEPS {
      DoneSuffix(log, |log| - MAX_STEPS);
    }
  }

  /** A state that can end a turn. */
  predicate Settles(state: string) {
    state == "awaiting_input" || state == "error" || state == "awaiting_permission"
  }

  /** The last step, closed if it was open. */
  function Closed(log: seq<Entry>, state: string, response: string, tool: string): seq<Entry> {
    if log == [] || IsDone(log[|log| - 1]) then log
    else log[|log| - 1 := log[|log| - 1].(state := state, reply := response, tool := tool)]
  }

  /** The last step with the tool it is using, while it is open. */
  function Using(log: seq<Entry>, tool: string): seq<Entry> {
    if log == [] || IsDone(log[|log| - 1]) || tool == "" then log
    else log[|log| - 1 := log[|log| - 1].(tool := tool)]
  }

  function Seen(r: Route, state: string, response: string, tool: string): Route {
    var r' := r.(state := state, tool := if tool != "" then tool else r.tool);
    if Settles(state) && r.sent > r.observed then
      r'.(observed := r.observed + 1, steplog := Closed(r.steplog, state, response, tool))
    else if state == "working" then r'.(steplog := Using(r.steplog, tool))
    else r'
  }

  lemma ClosedDone(log: seq<Entry>, state: string, response: string, tool: string)
    requires state != ""
    ensures var log' := Closed(log, state, response, tool);
      && |log'| == |log| && (forall i :: 0 <= i < |log| ==> log'[i].n == log[i].n)
      && Done(log') <= Done(log) + 1
  {
    if log != [] {
      assert Closed(log, state, response, tool)[..|log| - 1] == log[..|log| - 1];
    }
  }

  lemma UsingDone(log: seq<Entry>, tool: string)
    ensures var log' := Using(log, tool);
      && |log'| == |log| && (forall i :: 0 <= i < |log| ==> log'[i].n == log[i].n)
      && Done(log') == Done(log)
  {
    if log != [] {
      assert Using(log, tool)[..|log| - 1] == log[..|log| - 1];
    }
  }

  lemma SeenKeepsRoute(r: Route, state: string, response: string, tool: string)
    requires RouteOk(r)
    ensures RouteOk(Seen(r, state, response, tool))
    ensures var r' := Seen(r, state, response, tool);
      r'.sent == r.sent && r'.observed == r.observed + if Settles(state) && r.sent > r.observed then 1 else 0
  {
    hide Closed, Using, Done;
    if state != "" {
      ClosedDone(r.steplog, state, response, tool);
    }
    UsingDone(r.steplog, tool);
    assert Settles(state) ==> state != "";
  }

  /** An observation that counts closes the last step if that is open, and no step
      otherwise. */
  lemma ClosesTheLastStep(r: Route, state: string, response: string, tool: string)
    requires Settles(state) && r.sent > r.observed
    ensures var log := Seen(r, state, response, tool).steplog;
      && |log| == |r.steplog|
      && (forall i :: 0 <= i < |log| - 1 ==> log[i] == r.steplog[i])
      && Done(log) == Done(r.steplog) + if r.steplog != [] && !IsDone(r.steplog[|log| - 1]) then 1 else 0
  {
    var log := Seen(r, state, response, tool).steplog;
    if log != [] {
      assert log[..|log| - 1] == r.steplog[..|log| - 1];
    }
  }

  function NewRoute(steps: int): Route {
    Route(0, 0, steps, "", "", "idle", "", false, [])
  }

  /** The table's list has as many panes as the table. */
  lemma {:induction false} KeysCounted(order: seq<int>, routes: map<int, Route>)
    requires Ascending(order) && forall p :: p in routes <==> p in order
    ensures |routes| == |order|
  {
    KeySet(order);
    var keys := set p | p in order;
    assert routes.Keys == keys by {
      assert forall p :: p in keys <==> p in routes.Keys;
    }
  }

  lemma {:induction false} KeySet(order: seq<int>)
    requires Ascending(order)
    ensures |set p | p in order| == |order|
  {
    if order != [] {
      KeySet(order[1..]);
      var rest := set p | p in order[1..];
      assert (set p | p in order) == {order[0]} + rest;
      forall p | p in order[1..] ensures p != order[0] {
        assert order[0] < p;
      }
    }
  }
}
