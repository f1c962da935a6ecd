/**
One lane: the FIFO of hub/lane.go and what each of its critical sections does to
it. `Lane` is the object, with the source's fields; its methods are proved against
the functions on `LaneState`, and `LaneProtocol` is about those functions.
*/
module Lanes {

  const LANE_MAX_ITEMS := 256
  const LANE_MAX_BYTES := 0x10_0000

  /** A lane item, known by the call that submitted it; size weighs it against the
      byte cap. */
  datatype Item = Item(id: nat, size: nat)

  /** The fields under l.mu. */
  datatype LaneState = LaneState(q: seq<Item>, bytes: int, quiesced: bool, closed: bool, retired: bool)

  datatype PushResult = PushOK | PushFull | PushRefused | PushGone

  datatype NextResult = RunItem(item: Item) | Wait | Stop

  const EMPTY_LANE := LaneState([], 0, false, false, false)

  function Bytes(q: seq<Item>): nat {
    if q == [] then 0 else q[0].size + Bytes(q[1..])
  }

  lemma {:induction false} BytesAppend(q: seq<Item>, item: Item)
    ensures Bytes(q + [item]) == Bytes(q) + item.size
  {
    if q != [] {
      assert (q + [item])[1..] == q[1..] + [item];
      BytesAppend(q[1..], item);
    } else {
      assert (q + [item])[1..] == [];
    }
  }

  /** What holds of a lane between critical sections: the byte count is the
      queue's, both are within the caps, and a lane nobody drains, or that was
      quiesced, is empty. */
  predicate LaneOk(l: LaneState) {
    && l.bytes == Bytes(l.q)
    && |l.q| <= LANE_MAX_ITEMS && l.bytes <= LANE_MAX_BYTES
    && (l.retired || l.quiesced ==> l.q == [])
  }

  // ── the critical sections ────────────────────────────────────────────────

  function Push(l: LaneState, item: Item): (LaneState, PushResult) {
    if l.retired then (l, PushGone)
    else if l.quiesced || l.closed then (l, PushRefused)
    else if |l.q| + 1 > LANE_MAX_ITEMS || l.bytes + item.size > LANE_MAX_BYTES then (l, PushFull)
    else (l.(q := l.q + [item], bytes := l.bytes + item.size), PushOK)
  }

  function Next(l: LaneState): (LaneState, NextResult) {
    if l.quiesced then (l.(retired := true), Stop)
    else if l.q != [] then (l.(q := l.q[1..], bytes := l.bytes - l.q[0].size), RunItem(l.q[0]))
    else if l.closed then (l.(retired := true), Stop)
    else (l, Wait)
  }

  function IdleOut(l: LaneState): (LaneState, bool) {
    if l.q != [] then (l, false) else (l.(retired := true), true)
  }

  function Quiesce(l: LaneState): (LaneState, seq<Item>) {
    if l.quiesced then (l, []) else (l.(quiesced := true, q := [], bytes := 0), l.q)
  }

  /** Every critical section keeps a lane in order; retire's mark is made only by
      a drainer that has stopped, when next or idleOut has made it already. */
  lemma SectionsKeepLane(l: LaneState, item: Item)
    requires LaneOk(l)
    ensures LaneOk(Push(l, item).0)
    ensures LaneOk(Next(l).0)
    ensures LaneOk(IdleOut(l).0)
    ensures LaneOk(Quiesce(l).0)
    ensures LaneOk(l.(closed := true))
    ensures l.retired ==> LaneOk(l.(retired := true))
  {
    BytesAppend(l.q, item);
  }

  /** Nothing leaves the queue but its front, to be run, or all of it, to be
      discarded; nothing enters it but at its end. */
  lemma SectionsKeepOrder(l: LaneState, item: Item)
    ensures Push(l, item).0.q == if Push(l, item).1 == PushOK then l.q + [item] else l.q
    ensures match Next(l).1
      case RunItem(first) => !l.quiesced && l.q == [first] + Next(l).0.q
      case Wait => Next(l).0 == l && l.q == []
      case Stop => Next(l).0.q == l.q && Next(l).0.retired && (l.q != [] ==> l.quiesced)
    ensures Next(l).1.Stop? <==> l.quiesced || (l.closed && l.q == [])
    ensures IdleOut(l).0.q == l.q && (IdleOut(l).1 <==> l.q == [])
    ensures IdleOut(l).0.retired <==> l.retired || IdleOut(l).1
    ensures !l.quiesced ==> Quiesce(l).1 + Quiesce(l).0.q == l.q
    ensures l.quiesced ==> Quiesce(l) == (l, [])
  {
    assert l.q != [] ==> l.q == [l.q[0]] + l.q[1..];
  }

  // ── the object ───────────────────────────────────────────────────────────

  class Lane {
    const pane: int
    var q: seq<Item>
    var bytes: int
    var quiesced: bool
    var closed: bool
    var retired: bool

    ghost function State(): LaneState
      reads this
    {
      LaneState(q, bytes, quiesced, closed, retired)
    }

    constructor (pane: int)
      ensures this.pane == pane && State() == EMPTY_LANE && LaneOk(State())
    {
      this.pane := pane;
      q, bytes := [], 0;
      quiesced, closed, retired := false, false, false;
    }

    /** push: enqueue one item and report what happened. */
    method PushItem(item: Item) returns (r: PushResult)
      requires LaneOk(State())
      modifies this
      ensures (State(), r) == Push(old(State()), item) && LaneOk(State())
    {
      SectionsKeepLane(State(), item);
      if retired {
        return PushGone;
      } else if quiesced || closed {
        return PushRefused;
      } else if |q| + 1 > LANE_MAX_ITEMS || bytes + item.size > LANE_MAX_BYTES {
        return PushFull;
      }
      q := q + [item];
      bytes := bytes + item.size;
      return PushOK;
    }

    /** next: the drainer's next item, or that it must wait or stop. */
    method TakeNext() returns (r: NextResult)
      requires LaneOk(State())
      modifies this
      ensures (State(), r) == Next(old(State())) && LaneOk(State())
    {
      if quiesced {
        retired := true;
        return Stop;
      } else if |q| > 0 {
        r := RunItem(q[0]);
        bytes := bytes - q[0].size;
        q := q[1..];
        return r;
      } else if closed {
        retired := true;
        return Stop;
      }
      return Wait;
    }

    /** idleOut: retire a lane that has been empty for long enough, unless an item
        came in while the timer was firing. */
    method RetireIfIdle() returns (out: bool)
      requires LaneOk(State())
      modifies this
      ensures (State(), out) == IdleOut(old(State())) && LaneOk(State())
    {
      if |q| > 0 {
        return false;
      }
      retired := true;
      return true;
    }

    /** close: refuse new work, keep what is queued. */
    method Close()
      requires LaneOk(State())
      modifies this
      ensures State() == old(State()).(closed := true) && LaneOk(State())
    {
      closed := true;
    }

    /** quiesce: empty the queue; the caller discards what it held. */
    method QuiesceLane() returns (dropped: seq<Item>)
      requires LaneOk(State())
      modifies this
      ensures (State(), dropped) == Quiesce(old(State())) && LaneOk(State())
    {
      if quiesced {
        return [];
      }
      quiesced := true;
      dropped := q;
      q, bytes := [], 0;
    }
  }
}
