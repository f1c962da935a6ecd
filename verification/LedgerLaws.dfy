/**
What the steps of `ControlLedger` do to a route and to the ring of views, field by field and
step by step (mux/control.go:398-424, 700-760, 769-860, 893-922).
*/
module LedgerLaws {
  import opened InputKey
  import opened ControlLedger

  // ── a step sent ──────────────────────────────────────────────────────────

  /** The number the decimal digits stand for. */
  function Decimal(s: string): int {
    if s == "" then 0 else 10 * Decimal(s[..|s| - 1]) + (s[|s| - 1] as int - 48)
  }

  predicate IsDecimal(s: string, n: nat) {
    s != "" && (forall i :: 0 <= i < |s| ==> '0' <= s[i] <= '9') && (s[0] == '0' ==> |s| == 1) && Decimal(s) == n
  }

  lemma {:induction false} ItoaReads(n: nat)
    ensures IsDecimal(Itoa(n), n) && (n > 0 ==> Itoa(n)[0] != '0')
  {
    if n < 10 {
      assert Decimal("") == 0;
      assert Itoa(n)[..0] == "";
    } else {
      ItoaReads(n / 10);
      var s := Itoa(n);
      assert s[..|s| - 1] == Itoa(n / 10);
    }
  }

  /** A step's name: the one given, or its number, of how many if that is known. */
  ghost predicate IsTag(tag: string, given: string, n: nat, steps: int) {
    if given != "" then tag == given else exists d: string, e: string :: IsNumbered(tag, d, e, n, steps)
  }

  predicate IsNumbered(tag: string, d: string, e: string, n: nat, steps: int) {
    && IsDecimal(d, n)
    && if steps >= 1 then IsDecimal(e, steps) && tag == "step " + d + "/" + e else tag == "step " + d
  }

  /** The last of all, no more than max of them. */
  predicate IsNewest<T(==)>(kept: seq<T>, all: seq<T>, max: nat) {
    && |kept| == (if |all| < max then |all| else max)
    && forall i :: 0 <= i < |kept| ==> kept[i] == all[|all| - |kept| + i]
  }

  lemma NewestMeans<T>(s: seq<T>, max: nat)
    ensures IsNewest(Newest(s, max), s, max)
  {}

  /** An instruction makes the route busy and adds one open step: the next number, the text
      as it came, nothing else yet. Of the older steps the newest are kept, 64 in all. */
  lemma SendMeans(r: Route, tag: string, text: string)
    ensures var r' := WithStep(r, tag, text);
      && r' == r.(sent := r'.sent, state := "working", steplog := r'.steplog)
      && r'.sent == r.sent + 1
      && r'.steplog != []
      && var e := r'.steplog[|r'.steplog| - 1];
         && IsNewest(r'.steplog, r.steplog + [e], 64)
         && e.n == r'.sent && e.text == text && e.tool == "" && e.state == "" && e.reply == ""
         && IsTag(e.tag, tag, r'.sent, r.steps)
  {
    hide Itoa, StepTag;
    TagMeans(r, tag);
    var e := Entry(r.sent + 1, StepTag(r, tag), text, "", "", "");
    NewestMeans(r.steplog + [e], 64);
    assert (r.steplog + [e])[|r.steplog|] == e;
  }

  lemma TagMeans(r: Route, tag: string)
    ensures IsTag(StepTag(r, tag), tag, r.sent + 1, r.steps)
  {
    hide Itoa, IsDecimal;
    ItoaReads(r.sent + 1);
    if r.steps > 0 {
      ItoaReads(r.steps);
    }
    var d, e := Itoa(r.sent + 1), if r.steps > 0 then Itoa(r.steps) else "";
    assert tag == "" ==> IsNumbered(StepTag(r, tag), d, e, r.sent + 1, r.steps);
  }

  // ── a state seen ─────────────────────────────────────────────────────────

  /** The state ends a turn, and more was sent to this pane than was observed there. */
  predicate EndsTurn(r: Route, state: string) {
    state in {"awaiting_input", "error", "awaiting_permission"} && r.observed < r.sent
  }

  /** The last step, if it is still open. */
  predicate IsOpenLast(log: seq<Entry>, i: int) {
    0 <= i && i == |log| - 1 && log[i].state == ""
  }

  /** What was seen is the route's state, and its tool if one was named. A turn that ends
      counts once; it closes the last step if that is open, with the state, the reply
      and the tool. A working state names the tool of an open last step. Nothing else
      changes, of the route or of any step. */
  lemma SeenMeans(r: Route, state: string, response: string, tool: string)
    ensures var r' := Seen(r, state, response, tool);
      && r' == r.(observed := r'.observed, state := state, tool := r'.tool, steplog := r'.steplog)
      && r'.observed == (if EndsTurn(r, state) then r.observed + 1 else r.observed)
      && (tool != "" ==> r'.tool == tool) && (tool == "" ==> r'.tool == r.tool)
      && |r'.steplog| == |r.steplog|
      && forall i :: 0 <= i < |r.steplog| ==>
           r'.steplog[i] ==
             if IsOpenLast(r.steplog, i) && EndsTurn(r, state)
             then r.steplog[i].(state := state, reply := response, tool := tool)
             else if IsOpenLast(r.steplog, i) && state == "working" && tool != "" then r.steplog[i].(tool := tool)
             else r.steplog[i]
  {}

  // ── the rows ─────────────────────────────────────────────────────────────

  /** Touching a pane gives it a row, new and idle, unless it has one, is no pane, or 32
      others have one; the other rows stay. */
  lemma TouchMeans(routes: map<int, Route>, pane: int, steps: int)
    ensures var t := Touched(routes, pane, steps);
      && (forall p :: p in routes ==> p in t && t[p] == routes[p])
      && (forall p :: p in t && p !in routes ==> p == pane)
      && (pane in t <==> pane in routes || (pane >= 0 && |routes| <= 31))
      && (pane in t && pane !in routes ==>
            t[pane].sent == 0 && t[pane].observed == 0 && t[pane].steplog == [] && t[pane].steps == steps
            && t[pane].title == "" && t[pane].goal == "" && t[pane].state == "idle" && t[pane].tool == ""
            && !t[pane].isClosed)
  {}

  /** The stream keeps the newest 400 signals. */
  lemma StreamMeans(signals: seq<Signal>, sig: Signal)
    ensures IsNewest(Newest(signals + [sig], MAX_SIGNALS), signals + [sig], 400)
  {
    NewestMeans(signals + [sig], 400);
  }

  // ── the ring of views ────────────────────────────────────────────────────

  /** The views in order: each row's, and at the end all. */
  function Ring(order: seq<int>): (r: seq<int>)
    ensures |r| == |order| + 1
  {
    order + [-1]
  }

  /** A step of delta goes that many views on, around the ring; a view that is on it no
      longer counts as all. */
  lemma CycleMeans(order: seq<int>, filter: int, delta: int, i: nat)
    requires Ascending(order) && i <= |order|
    requires Ring(order)[i] == if filter in order then filter else -1
    requires forall p :: p in order ==> p >= 0
    ensures Cycled(order, filter, delta) == Ring(order)[(i + delta) % (|order| + 1)]
  {
    hide Turned;
    assert i < |order| ==> Ring(order)[i] == order[i] && order[i] in order;
    assert filter in order ==> i < |order|;
    if i < |order| {
      PositionOf(order, i);
    }
    TurnedIs(i, delta, |order|);
    var at := (i + delta) % (|order| + 1);
    assert 0 <= at <= |order|;
  }
}
