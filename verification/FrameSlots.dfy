/**
Frame slots (hub/watch.go): one latest-wins slot per watched pane, merged into by
offers and drained round-robin.
*/
module FrameSlots {
  import opened Wrappers

  /** Encoded rows by row index. */
  type Rows = map<int, string>

  /** One pane's pending frame for one subscriber. raw is the whole-message form. */
  datatype Slot = Slot(active: bool, full: bool, key: bool, hdr: string, rows: Rows, raw: Option<string>)

  const EMPTY_SLOT := Slot(false, false, false, "", map[], None)

  predicate IsPending(sl: Slot) {
    sl.active && sl.full
  }

  /** What assemble renders: a whole message as it came, or the header with the
      sticky key flag and the merged rows. */
  datatype FrameMsg = Whole(raw: string) | Merged(hdr: string, key: bool, rows: Rows)

  function Assemble(sl: Slot): FrameMsg {
    if sl.raw.Some? then Whole(sl.raw.value) else Merged(sl.hdr, sl.key, sl.rows)
  }

  /** The slot once its message has been handed to the writer. */
  function Drained(sl: Slot): Slot {
    EMPTY_SLOT.(active := sl.active)
  }

  /** Offer with rows. */
  function OfferRows(sl: Slot, key: bool, rows: Rows, hdr: string): Slot {
    Slot(sl.active, true, sl.key || key, hdr, if key then rows else sl.rows + rows, None)
  }

  /** Offer without rows: hdr is a whole message. */
  function OfferRaw(sl: Slot, hdr: string): Slot {
    sl.(raw := Some(hdr), full := true)
  }

  // ── the lines of a frame ─────────────────────────────────────────────────

  /** The lines are the rows, once each, in row order. */
  predicate AreLines(lines: seq<(int, string)>, rows: Rows) {
    && (forall i, j :: 0 <= i < j < |lines| ==> lines[i].0 < lines[j].0)
    && (forall i :: 0 <= i < |lines| ==> lines[i].0 in rows && rows[lines[i].0] == lines[i].1)
    && |lines| == |rows|
  }

  function InsertLine(lines: seq<(int, string)>, line: (int, string)): seq<(int, string)> {
    if lines == [] || line.0 < lines[0].0 then [line] + lines
    else [lines[0]] + InsertLine(lines[1..], line)
  }

  lemma {:induction false} InsertLineKeeps(lines: seq<(int, string)>, rows: Rows, line: (int, string))
    requires AreLines(lines, rows) && line.0 !in rows
    ensures AreLines(InsertLine(lines, line), rows[line.0 := line.1])
  {
    InsertLineSorted(lines, line);
    var out := InsertLine(lines, line);
    forall i | 0 <= i < |out|
      ensures out[i].0 in rows[line.0 := line.1] && rows[line.0 := line.1][out[i].0] == out[i].1
    {
      assert out[i] == line || out[i] in lines;
    }
  }

  lemma {:induction false} InsertLineSorted(lines: seq<(int, string)>, line: (int, string))
    requires forall i, j :: 0 <= i < j < |lines| ==> lines[i].0 < lines[j].0
    requires forall i :: 0 <= i < |lines| ==> lines[i].0 != line.0
    ensures var out := InsertLine(lines, line);
      && |out| == |lines| + 1
      && (forall i, j :: 0 <= i < j < |out| ==> out[i].0 < out[j].0)
      && (forall i :: 0 <= i < |out| ==> out[i] == line || out[i] in lines)
  {
    if lines != [] && !(line.0 < lines[0].0) {
      InsertLineSorted(lines[1..], line);
      var rest := InsertLine(lines[1..], line);
      assert forall i :: 0 <= i < |rest| ==> rest[i] == line || rest[i] in lines[1..];
      assert forall x :: x in lines[1..] ==> x.0 > lines[0].0;
    }
  }

  lemma SomeMember(ys: set<int>)
    requires ys != {}
    ensures exists y :: y in ys
  {
    assert (forall y :: y !in ys) ==> ys == {};
  }

  /** The sort and the loop of assemble: a frame carries every merged row once, in
      row order, whatever order the map gives them in. */
  method SortLines(rows: Rows) returns (lines: seq<(int, string)>)
    ensures AreLines(lines, rows)
  {
    lines := [];
    var todo := rows.Keys;
    ghost var done: Rows := map[];
    while todo != {}
      invariant todo <= rows.Keys
      invariant done == map y | y in rows && y !in todo :: rows[y]
      invariant AreLines(lines, done)
      decreases |todo|
    {
      SomeMember(todo);
      var y :| y in todo;
      InsertLineKeeps(lines, done, (y, rows[y]));
      lines := InsertLine(lines, (y, rows[y]));
      done := done[y := rows[y]];
      todo := todo - {y};
    }
    assert done == rows;
  }

  // ── merging refines the stream of offers ─────────────────────────────────

  /** A frame on the client's screen: a keyframe is the screen, a delta changes the
      rows it carries. */
  function Paint(screen: Rows, key: bool, rows: Rows): Rows {
    if key then rows else screen + rows
  }

  function PaintMsg(screen: Rows, m: FrameMsg): Rows {
    match m
    case Whole(_) => screen
    case Merged(_, key, rows) => Paint(screen, key, rows)
  }

  /** What happens to one slot of a pane watched in frames mode. */
  datatype SlotEvent = Offered(key: bool, rows: Rows, hdr: string) | Taken

  /** A slot, the screen of a client that applied every message taken so far, and
      that of one that applied every offer. */
  datatype Watching = Watching(sl: Slot, client: Rows, ideal: Rows)

  function Step(w: Watching, e: SlotEvent): Watching {
    match e
    case Offered(key, rows, hdr) =>
      w.(sl := OfferRows(w.sl, key, rows, hdr), ideal := Paint(w.ideal, key, rows))
    case Taken =>
      if !IsPending(w.sl) then w
      else w.(sl := Drained(w.sl), client := PaintMsg(w.client, Assemble(w.sl)))
  }

  function Steps(w: Watching, es: seq<SlotEvent>): Watching
    decreases |es|
  {
    if es == [] then w else Steps(Step(w, es[0]), es[1..])
  }

  /** The client, once it has the pending frame too, shows what every offer in order
      would have shown. */
  predicate CaughtUp(w: Watching) {
    && w.sl.raw.None?
    && (!w.sl.full ==> !w.sl.key && w.sl.rows == map[])
    && w.ideal == Paint(w.client, w.sl.key, w.sl.rows)
  }

  lemma StepCaughtUp(w: Watching, e: SlotEvent)
    requires CaughtUp(w)
    ensures CaughtUp(Step(w, e))
  {
    if e.Offered? && !e.key {
      assert Paint(w.client, w.sl.key, w.sl.rows) + e.rows == Paint(w.client, w.sl.key, w.sl.rows + e.rows);
    }
  }

  /** Frame merging refines the frame stream: for any offers and takes, in any
      order, the client that applied the taken messages and then the pending slot
      shows the screen of one that applied every offer. */
  lemma {:induction false} MergingRefines(w: Watching, es: seq<SlotEvent>)
    requires CaughtUp(w)
    ensures CaughtUp(Steps(w, es))
    decreases |es|
  {
    if es != [] {
      StepCaughtUp(w, es[0]);
      MergingRefines(Step(w, es[0]), es[1..]);
    }
  }

  /** Nothing pending: the client is exactly up to date. */
  lemma DrainedIsExact(w: Watching)
    requires CaughtUp(w) && IsPending(w.sl)
    ensures Step(w, Taken).client == w.ideal && !Step(w, Taken).sl.full
  {}

  /** Overlaying a keyframe instead of replacing the screen is the same, because a
      keyframe covers every row; the merge of one still does. */
  lemma OverlayIsSame(screen: Rows, key: bool, rows: Rows, all: set<int>)
    requires screen.Keys <= all && (key ==> all <= rows.Keys)
    ensures screen + rows == Paint(screen, key, rows)
  {}

  lemma StickyKeyCovers(sl: Slot, key: bool, rows: Rows, hdr: string, all: set<int>)
    requires sl.key ==> all <= sl.rows.Keys
    requires key ==> all <= rows.Keys
    ensures OfferRows(sl, key, rows, hdr).key ==> all <= OfferRows(sl, key, rows, hdr).rows.Keys
  {}

  /** A raw offer on top of pending rows wins the slot, so taking it drops them:
      the refinement survives if and only if those rows changed nothing. */
  lemma RawOnRows(w: Watching, hdr: string)
    requires CaughtUp(w) && w.sl.active
    ensures var w' := Step(w.(sl := OfferRaw(w.sl, hdr)), Taken);
      CaughtUp(w') <==> Paint(w.client, w.sl.key, w.sl.rows) == w.client
  {
    assert w.client + map[] == w.client;
  }

  // ── round-robin ──────────────────────────────────────────────────────────

  type Slots = map<int, Slot>

  predicate NoRepeats(order: seq<int>) {
    forall i, j :: 0 <= i < j < |order| ==> order[i] != order[j]
  }

  /** slotOrder lists the slots, each once. */
  ghost predicate OrderOk(slots: Slots, order: seq<int>) {
    NoRepeats(order) && (forall p :: p in order <==> p in slots)
  }

  lemma InRotation(slots: Slots, order: seq<int>, i: nat)
    requires OrderOk(slots, order) && i < |order|
    ensures order[i] in slots
  {
    var p := order[i];
    assert p in order;
  }

  predicate HasPending(slots: Slots) {
    exists p :: p in slots && IsPending(slots[p])
  }

  lemma SomePending(slots: Slots, pane: int)
    requires pane in slots && IsPending(slots[pane])
    ensures HasPending(slots)
  {}

  /** slotNext, moved on by one turn of the loop. */
  function Advance(next: nat, n: nat): nat
    requires n > 0
  {
    if next + 1 >= n then 0 else next + 1
  }

  /** The loop of takeSlotLocked with `tries` turns left: where slotNext ends, and
      whether a pending slot was met there. */
  function Scan(slots: Slots, order: seq<int>, next: nat, tries: nat): (r: (nat, bool))
    requires order != []
    ensures r.1 ==> r.0 < |order| && order[r.0] in slots && IsPending(slots[order[r.0]])
    decreases tries
  {
    if tries == 0 then (next, false)
    else
      var i := Advance(next, |order|);
      if order[i] in slots && IsPending(slots[order[i]]) then (i, true)
      else Scan(slots, order, i, tries - 1)
  }

  /** How many turns from `next` until slotNext is pos. */
  function Distance(next: nat, pos: nat, n: nat): (d: nat)
    requires pos < n
    ensures 1 <= d <= n
  {
    if next >= n then pos + 1
    else if pos > next then pos - next else pos + n - next
  }

  /** The scan stops at the first pending slot in rotation order: at pos, or at one
      that is nearer. */
  lemma {:induction false} ScanFinds(slots: Slots, order: seq<int>, next: nat, tries: nat, pos: nat)
    requires pos < |order| && order[pos] in slots && IsPending(slots[order[pos]])
    requires Distance(next, pos, |order|) <= tries
    ensures var r := Scan(slots, order, next, tries);
      r.1 && (r.0 == pos || Distance(r.0, pos, |order|) < Distance(next, pos, |order|))
    decreases tries
  {
    var i := Advance(next, |order|);
    if i != pos && !(order[i] in slots && IsPending(slots[order[i]])) {
      ScanFinds(slots, order, i, tries - 1, pos);
    }
  }

  /** So whenever something is pending, a take returns a frame. */
  lemma PendingIsTaken(slots: Slots, order: seq<int>, next: nat)
    requires OrderOk(slots, order) && HasPending(slots)
    ensures order != [] && Scan(slots, order, next, |order|).1
  {
    var p :| p in slots && IsPending(slots[p]);
    assert p in order;
    var pos :| 0 <= pos < |order| && order[pos] == p;
    ScanFinds(slots, order, next, |order|, pos);
  }

  /** One Sub's slots while none is added or removed: offers and takes. */
  datatype Rotation = Rotation(slots: Slots, next: nat)

  datatype RotationEvent = OfferTo(pane: int, sl: Slot) | TakeOne

  function Rotate(r: Rotation, order: seq<int>, e: RotationEvent): Rotation {
    match e
    case OfferTo(p, sl) => if p in r.slots then r.(slots := r.slots[p := sl]) else r
    case TakeOne =>
      if order == [] then r
      else
        var (i, found) := Scan(r.slots, order, r.next, |order|);
        if found then Rotation(r.slots[order[i] := Drained(r.slots[order[i]])], i) else r.(next := i)
  }

  /** Whether the pane at pos is served somewhere in es. */
  predicate ServedIn(r: Rotation, order: seq<int>, es: seq<RotationEvent>, pos: nat)
    requires pos < |order|
    decreases |es|
  {
    es != [] &&
    (|| (es[0].TakeOne? && var (i, found) := Scan(r.slots, order, r.next, |order|); found && i == pos)
     || ServedIn(Rotate(r, order, es[0]), order, es[1..], pos))
  }

  function Takes(es: seq<RotationEvent>): nat {
    if es == [] then 0 else (if es[0].TakeOne? then 1 else 0) + Takes(es[1..])
  }

  /** Offers leave a pending slot pending, as Offer does. */
  predicate OffersOnly(es: seq<RotationEvent>, pane: int) {
    forall i :: 0 <= i < |es| && es[i].OfferTo? && es[i].pane == pane ==> IsPending(es[i].sl)
  }

  /** No pane starves: a pending pane is served within one pass, |order| takes,
      however fast the other panes are offered to in between. */
  lemma {:induction false} ServedWithinOnePass(r: Rotation, order: seq<int>, es: seq<RotationEvent>, pos: nat)
    requires pos < |order| && NoRepeats(order)
    requires order[pos] in r.slots && IsPending(r.slots[order[pos]])
    requires OffersOnly(es, order[pos])
    requires Takes(es) >= Distance(r.next, pos, |order|)
    ensures ServedIn(r, order, es, pos)
    decreases |es|
  {
    if es[0].TakeOne? {
      ScanFinds(r.slots, order, r.next, |order|, pos);
      var i := Scan(r.slots, order, r.next, |order|).0;
      if i != pos {
        assert order[i] != order[pos];
        ServedWithinOnePass(Rotate(r, order, es[0]), order, es[1..], pos);
      }
    } else {
      ServedWithinOnePass(Rotate(r, order, es[0]), order, es[1..], pos);
    }
  }
}
