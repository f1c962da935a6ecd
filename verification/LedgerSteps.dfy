/**
Which steps of a route's ledger are ever closed (mux/control.go:736-753, 800-845).

An observation looks at the last step alone, so a step that is not closed when the next
one is sent is left behind: it stays open, and as it is, for as long as it is kept.
*/
module LedgerSteps {
  import opened ControlLedger

  /** What happens to a route's ledger: an instruction sent, or a state seen. */
  datatype RouteEvent = Sent(tag: string, text: string) | Saw(state: string, response: string, tool: string)

  function After(r: Route, e: RouteEvent): Route {
    match e
    case Sent(tag, text) => WithStep(r, tag, text)
    case Saw(state, response, tool) => Seen(r, state, response, tool)
  }

  function Run(r: Route, es: seq<RouteEvent>): Route
    decreases |es|
  {
    if es == [] then r else Run(After(r, es[0]), es[1..])
  }

  /** The number of the oldest step kept. */
  function Oldest(r: Route): int {
    r.sent - |r.steplog| + 1
  }

  predicate IsKept(r: Route, n: int) {
    Oldest(r) <= n <= r.sent
  }

  function StepAt(r: Route, n: int): Entry
    requires IsKept(r, n)
  {
    r.steplog[n - Oldest(r)]
  }

  predicate LastIsOpen(r: Route) {
    r.steplog != [] && !IsDone(r.steplog[|r.steplog| - 1])
  }

  /** An open step with a later one behind it. */
  predicate IsStranded(r: Route, n: int) {
    IsKept(r, n) && n < r.sent && !IsDone(StepAt(r, n))
  }

  lemma StepNumbered(r: Route, n: int)
    requires RouteOk(r) && IsKept(r, n)
    ensures StepAt(r, n).n == n
  {}

  /** Seeing a state changes no step but the last. */
  lemma SeenKeepsSteps(r: Route, state: string, response: string, tool: string, n: int)
    requires n < r.sent
    ensures var r' := Seen(r, state, response, tool);
      && (IsKept(r', n) <==> IsKept(r, n))
      && (IsKept(r, n) ==> StepAt(r', n) == StepAt(r, n))
      && (IsStranded(r', n) <==> IsStranded(r, n))
  {
    hide Settles, IsDone;
  }

  /** A send keeps every step that stays within the 64, and changes none. */
  lemma SendKeepsSteps(r: Route, tag: string, text: string, n: int)
    requires n <= r.sent
    ensures var r' := WithStep(r, tag, text);
      && (IsKept(r', n) ==> IsKept(r, n) && StepAt(r', n) == StepAt(r, n))
  {
    hide StepTag;
  }

  /** A send strands a step exactly when the last one is open: that one. */
  lemma SendStrands(r: Route, tag: string, text: string, n: int)
    requires |r.steplog| <= MAX_STEPS
    ensures var r' := WithStep(r, tag, text);
      IsStranded(r', n) <==> IsKept(r', n) && (IsStranded(r, n) || (n == r.sent && LastIsOpen(r)))
    ensures n == r.sent && LastIsOpen(r) ==> IsKept(WithStep(r, tag, text), n)
  {
    hide StepTag, IsDone;
    if n <= r.sent {
      SendKeepsSteps(r, tag, text, n);
    }
  }

  lemma SendStrandsIff(r: Route, tag: string, text: string)
    requires |r.steplog| <= MAX_STEPS
    ensures (exists n :: IsStranded(WithStep(r, tag, text), n) && !IsStranded(r, n)) <==> LastIsOpen(r)
  {
    hide WithStep, IsStranded, LastIsOpen;
    var r' := WithStep(r, tag, text);
    forall n ensures IsStranded(r', n) && !IsStranded(r, n) ==> n == r.sent && LastIsOpen(r) {
      SendStrands(r, tag, text, n);
    }
    if LastIsOpen(r) {
      SendStrands(r, tag, text, r.sent);
      LastIsNotStranded(r);
    }
  }

  /** So two instructions sent with nothing observed between strand the first. */
  lemma TwoSendsStrand(r: Route, tag1: string, text1: string, tag2: string, text2: string)
    requires RouteOk(r)
    ensures IsStranded(WithStep(WithStep(r, tag1, text1), tag2, text2), r.sent + 1)
  {
    hide WithStep, IsStranded, RouteOk;
    var r1 := WithStep(r, tag1, text1);
    StepIs(r, tag1, text1);
    StepKeepsRoute(r, tag1, text1);
    RouteBound(r1);
    SendStrands(r1, tag2, text2, r.sent + 1);
  }

  lemma LastIsNotStranded(r: Route)
    ensures !IsStranded(r, r.sent)
  {}

  lemma StepKept(r: Route, e: RouteEvent, n: int)
    requires RouteOk(r) && IsStranded(r, n)
    ensures var r' := After(r, e);
      && RouteOk(r') && (n >= Oldest(r') ==> IsStranded(r', n) && StepAt(r', n) == StepAt(r, n))
      && Oldest(r) <= Oldest(r')
  {
    hide RouteOk;
    RouteBound(r);
    match e
    case Sent(tag, text) =>
      StepKeepsRoute(r, tag, text);
      SendKeepsSteps(r, tag, text, n);
      SendMoves(r, tag, text);
    case Saw(state, response, tool) =>
      SeenKeepsRoute(r, state, response, tool);
      SeenKeepsSteps(r, state, response, tool, n);
      SeenMoves(r, state, response, tool);
  }

  lemma RouteBound(r: Route)
    requires RouteOk(r)
    ensures |r.steplog| <= MAX_STEPS
  {}

  lemma SendMoves(r: Route, tag: string, text: string)
    ensures Oldest(r) <= Oldest(WithStep(r, tag, text)) && WithStep(r, tag, text).sent == r.sent + 1
  {
    hide StepTag;
  }

  lemma SeenMoves(r: Route, state: string, response: string, tool: string)
    ensures Oldest(r) == Oldest(Seen(r, state, response, tool)) && Seen(r, state, response, tool).sent == r.sent
  {
    hide Settles, IsDone;
  }

  /** A stranded step stays open for good: whatever is sent and seen after, while it is
      among the steps kept it stands there unchanged. */
  lemma {:induction false} StrandedForGood(r: Route, es: seq<RouteEvent>, n: int)
    requires RouteOk(r) && IsStranded(r, n)
    ensures var r' := Run(r, es);
      && RouteOk(r') && Oldest(r) <= Oldest(r')
      && (n >= Oldest(r') ==> IsStranded(r', n) && StepAt(r', n) == StepAt(r, n))
    decreases |es|
  {
    hide RouteOk, After, StepAt;
    if es != [] {
      StepKept(r, es[0], n);
      var r1 := After(r, es[0]);
      if n >= Oldest(r1) {
        StrandedForGood(r1, es[1..], n);
      } else {
        OldestGrows(r1, es[1..]);
      }
    }
  }

  lemma {:induction false} OldestGrows(r: Route, es: seq<RouteEvent>)
    requires RouteOk(r)
    ensures RouteOk(Run(r, es)) && Oldest(r) <= Oldest(Run(r, es))
    decreases |es|
  {
    hide RouteOk, Oldest;
    if es != [] {
      match es[0] {
        case Sent(tag, text) =>
          StepKeepsRoute(r, tag, text);
          SendMoves(r, tag, text);
        case Saw(state, response, tool) =>
          SeenKeepsRoute(r, state, response, tool);
          SeenMoves(r, state, response, tool);
      }
      OldestGrows(After(r, es[0]), es[1..]);
    }
  }
}
