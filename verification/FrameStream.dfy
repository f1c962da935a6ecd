/**
What the frames a subscriber is written are worth, over every run of `SubStream`
(hub/watch.go:108-203): they and the pending slot show what every offer that landed would
have shown, and each says what the offers since the one before it say together.
*/
module FrameStream {
  import opened Wrappers
  import opened FrameSlots
  import opened Subs
  import SubStream

  type Sys = SubStream.Sys
  type Event = SubStream.Step

  datatype Update = Update(key: bool, rows: Rows, hdr: string)

  /** The offers of rows to a pane that find it watched by a Sub that is open. */
  ghost function Landed(x: Sys, es: seq<Event>, pane: int): seq<Update>
    requires SubStream.IsRun(x, es)
    decreases |es|
  {
    if es == [] then []
    else
      var e, st := es[0], x.st;
      var rest := Landed(SubStream.After(x, e), es[1..], pane);
      if e.OfferTo? && e.pane == pane && e.rows.Some?
        && pane in st.slots && pane !in st.closedPanes && !st.closed && !st.finalized && !st.dead
      then [Update(e.key, e.rows.value, e.hdr)] + rest
      else rest
  }

  /** In frames mode, and while the watch lasts. */
  predicate Lasts(es: seq<Event>, pane: int) {
    forall i :: 0 <= i < |es| ==>
      && !(es[i].RemoveSlot? && es[i].pane == pane) && !(es[i].ClosePane? && es[i].pane == pane)
      && !es[i].FinalizeSub?
      && !(es[i].OfferTo? && es[i].pane == pane && es[i].rows.None?)
  }

  /** The slot of a pane watched so far in frames mode. */
  predicate IsClean(sl: Slot) {
    sl.raw.None? && (!sl.full ==> !sl.key && sl.rows == map[])
  }

  // ── what is on the screen ────────────────────────────────────────────────

  function PaintLog(screen: Rows, log: seq<Entry>, pane: int): Rows {
    if log == [] then screen
    else
      var e := log[|log| - 1];
      var before := PaintLog(screen, log[..|log| - 1], pane);
      if e.Frame? && e.pane == pane then PaintMsg(before, e.frame) else before
  }

  function PaintAll(screen: Rows, us: seq<Update>): Rows
    decreases |us|
  {
    if us == [] then screen else PaintAll(if us[0].key then us[0].rows else screen + us[0].rows, us[1..])
  }

  /** With the slot's frame too, if it has one. */
  function PaintSlot(screen: Rows, sl: Slot): Rows {
    if sl.full then PaintMsg(screen, Assemble(sl)) else screen
  }

  // ── one step ─────────────────────────────────────────────────────────────

  /** The frame of the pane that a step hands to the sink. */
  ghost function Wrote(x: Sys, e: Event, pane: int): Option<FrameMsg>
    requires SubStream.Enabled(x, e)
  {
    if e.TakeNext? && Take(x.st).1.Write? && Take(x.st).1.e.Frame? && Take(x.st).1.e.pane == pane
    then Some(Take(x.st).1.e.frame)
    else None
  }

  lemma TakeLeavesSlot(s: SubState, pane: int)
    requires SubOk(s) && pane in s.slots
    ensures var (s', r) := Take(s);
      && pane in s'.slots
      && if r.Write? && r.e.Frame? && r.e.pane == pane
         then IsPending(s.slots[pane]) && r.e.frame == Assemble(s.slots[pane])
           && s'.slots[pane] == Slot(s.slots[pane].active, false, false, "", map[], None)
         else s'.slots[pane] == s.slots[pane]
  {
    hide Scan, Size, NoRepeats, Assemble;
  }

  lemma SectionsLeaveSlot(s: SubState, e: Event, pane: int)
    requires pane in s.slots && Lasts([e], pane)
    ensures e.AddSlotFor? ==> pane in AddSlot(s, e.pane).0.slots && AddSlot(s, e.pane).0.slots[pane] == s.slots[pane]
    ensures e.ActivatePane? || e.Reply? ==>
      && pane in Activate(s, e.pane).slots
      && Activate(s, e.pane).slots[pane] == s.slots[pane].(active := s.slots[pane].active || e.pane == pane)
    ensures e.RemoveSlot? ==> pane in DropSlot(s, e.pane).slots && DropSlot(s, e.pane).slots[pane] == s.slots[pane]
    ensures e.ClosePane? ==> pane in PaneClosed(s, e.pane).slots && PaneClosed(s, e.pane).slots[pane] == s.slots[pane]
    ensures e.OfferTo? && e.pane != pane ==>
      && pane in Offer(s, e.pane, e.key, e.rows, e.hdr).slots
      && Offer(s, e.pane, e.key, e.rows, e.hdr).slots[pane] == s.slots[pane]
  {
    assert [e][0] == e;
  }

  /** A step that neither offers to the pane nor writes a frame of it leaves its slot, but
      for the activation. */
  lemma OthersLeaveSlot(x: Sys, e: Event, pane: int)
    requires SubOk(x.st) && pane in x.st.slots && SubStream.Enabled(x, e) && Lasts([e], pane)
    requires Wrote(x, e, pane).None? && !(e.OfferTo? && e.pane == pane)
    ensures var st' := SubStream.After(x, e).st;
      pane in st'.slots && st'.slots[pane] == x.st.slots[pane].(active := st'.slots[pane].active)
  {
    hide Take, Offer, AddSlot, Activate, DropSlot, PaneClosed, SubOk;
    assert [e][0] == e;
    SectionsLeaveSlot(x.st, e, pane);
    if e.TakeNext? {
      TakeLeavesSlot(x.st, pane);
    }
  }

  /** An offer that lands is painted on top of what the slot would show. */
  lemma OfferShows(x: Sys, e: Event, pane: int, screen: Rows)
    requires pane in x.st.slots && IsClean(x.st.slots[pane]) && e.OfferTo? && e.pane == pane && e.rows.Some?
    ensures var st' := SubStream.After(x, e).st;
      && pane in st'.slots && IsClean(st'.slots[pane])
      && PaintSlot(screen, st'.slots[pane]) == PaintAll(PaintSlot(screen, x.st.slots[pane]), Landed(x, [e], pane))
  {
    hide Take, PaintSlot, IsClean;
    var sl := x.st.slots[pane];
    assert [e][1..] == [];
    LandsOnSlot(sl, e.key, e.rows.value, e.hdr, screen);
    assert PaintAll(PaintSlot(screen, sl), []) == PaintSlot(screen, sl);
    assert PaintAll(PaintSlot(screen, sl), [Update(e.key, e.rows.value, e.hdr)]) ==
      if e.key then e.rows.value else PaintSlot(screen, sl) + e.rows.value by {
      PaintOne(PaintSlot(screen, sl), Update(e.key, e.rows.value, e.hdr));
    }
  }

  lemma PaintOne(screen: Rows, u: Update)
    ensures PaintAll(screen, [u]) == if u.key then u.rows else screen + u.rows
  {
    assert [u][1..] == [];
  }

  lemma LandsOnSlot(sl: Slot, key: bool, rows: Rows, hdr: string, screen: Rows)
    requires IsClean(sl)
    ensures var sl' := OfferRows(sl, key, rows, hdr);
      IsClean(sl') && PaintSlot(screen, sl') == if key then rows else PaintSlot(screen, sl) + rows
  {
    if !key {
      assert screen + (sl.rows + rows) == screen + sl.rows + rows;
      assert map[] + rows == rows;
    }
  }

  lemma {:induction false} PaintAppend(screen: Rows, us: seq<Update>, vs: seq<Update>)
    ensures PaintAll(screen, us + vs) == PaintAll(PaintAll(screen, us), vs)
    decreases |us|
  {
    if us == [] {
      assert us + vs == vs;
    } else {
      assert (us + vs)[1..] == us[1..] + vs;
      PaintAppend(if us[0].key then us[0].rows else screen + us[0].rows, us[1..], vs);
    }
  }

  lemma {:induction false} PaintLogFrom(screen: Rows, e: Entry, log: seq<Entry>, pane: int)
    ensures PaintLog(screen, [e] + log, pane) == PaintLog(PaintLog(screen, [e], pane), log, pane)
    decreases |log|
  {
    if log == [] {
      assert [e] + log == [e];
    } else {
      assert ([e] + log)[..|log|] == [e] + log[..|log| - 1];
      PaintLogFrom(screen, e, log[..|log| - 1], pane);
    }
  }

  /** What one step does to the screens. */
  lemma StepShows(x: Sys, e: Event, pane: int, screen: Rows)
    requires SubStream.Inv(x) && pane in x.st.slots && IsClean(x.st.slots[pane])
    requires SubStream.Enabled(x, e) && Lasts([e], pane)
    ensures var x' := SubStream.After(x, e);
      && x.log <= x'.log && pane in x'.st.slots && IsClean(x'.st.slots[pane])
      && PaintSlot(PaintLog(screen, x'.log[|x.log|..], pane), x'.st.slots[pane])
         == PaintAll(PaintSlot(screen, x.st.slots[pane]), Landed(x, [e], pane))
  {
    hide SubOk, SubStream.After, Take, SubStream.HeadOk, SubStream.StreamOk, SubStream.TornOk, SubStream.NoLostWakeup;
    assert [e][0] == e && [e][1..] == [];
    var x' := SubStream.After(x, e);
    SubStream.LogKept(x, e);
    OneEntry(x.log, x'.log);
    if e.OfferTo? && e.pane == pane {
      OfferShows(x, e, pane, screen);
    } else if Wrote(x, e, pane).Some? {
      TakeLeavesSlot(x.st, pane);
      TakeIsStep(x);
    } else {
      OthersLeaveSlot(x, e, pane);
    }
  }

  lemma OneEntry(log: seq<Entry>, log': seq<Entry>)
    requires log <= log' && |log'| <= |log| + 1
    ensures log'[|log|..] == if log' == log then [] else [log'[|log|]]
  {}

  lemma TakeIsStep(x: Sys)
    requires SubStream.Enabled(x, SubStream.TakeNext) && Take(x.st).1.Write?
    ensures SubStream.After(x, SubStream.TakeNext).st == Take(x.st).0
    ensures SubStream.After(x, SubStream.TakeNext).log == x.log + [Take(x.st).1.e]
  {
    hide Take;
  }

  lemma LandedStep(x: Sys, es: seq<Event>, pane: int)
    requires SubStream.IsRun(x, es) && es != []
    ensures Landed(x, es, pane) == Landed(x, [es[0]], pane) + Landed(SubStream.After(x, es[0]), es[1..], pane)
  {
    hide SubStream.After;
    assert [es[0]][1..] == [];
  }

  /** Merging refines the stream of offers, end to end: in every run, whatever else happens,
      the frames of the pane that were written, and then its slot, show the screen that
      every offer that landed, in order, would have shown. */
  lemma {:induction false} FramesShowOffers(x: Sys, es: seq<Event>, pane: int, screen: Rows)
    requires SubStream.Inv(x) && pane in x.st.slots && IsClean(x.st.slots[pane])
    requires SubStream.IsRun(x, es) && Lasts(es, pane)
    ensures var y := SubStream.Last(x, es);
      && x.log <= y.log && pane in y.st.slots && IsClean(y.st.slots[pane])
      && PaintSlot(PaintLog(screen, y.log[|x.log|..], pane), y.st.slots[pane])
         == PaintAll(PaintSlot(screen, x.st.slots[pane]), Landed(x, es, pane))
    decreases |es|
  {
    hide SubStream.After, SubStream.Inv, Landed, PaintLog, PaintAll, PaintSlot, IsClean;
    if es == [] {
      NothingLanded(x, pane, screen);
    } else {
      var e, x1 := es[0], SubStream.After(x, es[0]);
      assert Lasts([e], pane) && Lasts(es[1..], pane);
      StepShows(x, e, pane, screen);
      SubStream.InvKept(x, e);
      SubStream.LogKept(x, e);
      var new1 := x1.log[|x.log|..];
      var screen1 := PaintLog(screen, new1, pane);
      FramesShowOffers(x1, es[1..], pane, screen1);
      var y := SubStream.Last(x, es);
      LandedStep(x, es, pane);
      PaintAppend(PaintSlot(screen, x.st.slots[pane]), Landed(x, [e], pane), Landed(x1, es[1..], pane));
      OneEntry(x.log, x1.log);
      if x1.log == x.log {
        PaintNothing(screen, pane);
      } else {
        assert y.log[|x.log|..] == [y.log[|x.log|]] + y.log[|x1.log|..];
        PaintLogFrom(screen, y.log[|x.log|], y.log[|x1.log|..], pane);
      }
    }
  }

  lemma NothingLanded(x: Sys, pane: int, screen: Rows)
    requires pane in x.st.slots
    ensures Landed(x, [], pane) == [] && x.log[|x.log|..] == [] && PaintLog(screen, [], pane) == screen
    ensures PaintAll(PaintSlot(screen, x.st.slots[pane]), []) == PaintSlot(screen, x.st.slots[pane])
  {}

  lemma PaintNothing(screen: Rows, pane: int)
    ensures PaintLog(screen, [], pane) == screen
  {}

  // ── what one frame says ──────────────────────────────────────────────────

  /** The i-th offer has the row, and nothing behind it has it or takes the whole screen. */
  predicate IsNewestRow(us: seq<Update>, y: int, i: int) {
    && 0 <= i < |us| && y in us[i].rows
    && forall j :: i < j < |us| ==> y !in us[j].rows && !us[j].key
  }

  /** The frame says what these offers say together: the newest header, a key flag if any of
      them had one, and of each row the newest text since the newest keyframe. */
  ghost predicate Says(f: FrameMsg, us: seq<Update>) {
    && us != [] && f.Merged?
    && f.hdr == us[|us| - 1].hdr
    && (f.key <==> exists i :: 0 <= i < |us| && us[i].key)
    && (forall y :: y in f.rows <==> exists i :: IsNewestRow(us, y, i))
    && (forall y, i :: IsNewestRow(us, y, i) ==> y in f.rows && f.rows[y] == us[i].rows[y])
  }

  /** The slot holds what the offers since it was last empty say. */
  ghost predicate Holds(sl: Slot, us: seq<Update>) {
    IsClean(sl) && (sl.full <==> us != []) && (us != [] ==> Says(Assemble(sl), us))
  }

  lemma OneMore(sl: Slot, us: seq<Update>, key: bool, rows: Rows, hdr: string)
    requires Holds(sl, us)
    ensures Holds(OfferRows(sl, key, rows, hdr), us + [Update(key, rows, hdr)])
  {
    var vs := us + [Update(key, rows, hdr)];
    var sl' := OfferRows(sl, key, rows, hdr);
    var n := |us|;
    assert sl'.key <==> exists i :: 0 <= i < |vs| && vs[i].key by {
      if sl.key {
        var i :| 0 <= i < |us| && us[i].key;
        assert vs[i].key;
      }
      if key {
        assert vs[n].key;
      }
    }
    forall y, i | IsNewestRow(vs, y, i) ensures y in sl'.rows && sl'.rows[y] == vs[i].rows[y] {
      if i < n {
        assert y !in vs[n].rows && !vs[n].key;
        assert IsNewestRow(us, y, i) by {
          assert forall j :: i < j < n ==> us[j] == vs[j];
        }
      }
    }
    forall y | y in sl'.rows ensures exists i :: IsNewestRow(vs, y, i) {
      if y in rows {
        assert IsNewestRow(vs, y, n);
      } else {
        assert y in sl.rows && us != [];
        var i :| IsNewestRow(us, y, i);
        assert IsNewestRow(vs, y, i) by {
          assert forall j :: i < j < n ==> vs[j] == us[j];
        }
      }
    }
  }

  /** Between two frames of the pane, the slot gathers the offers that land. */
  lemma {:induction false} SlotGathers(x: Sys, es: seq<Event>, pane: int, us: seq<Update>)
    requires SubStream.Inv(x) && pane in x.st.slots && Holds(x.st.slots[pane], us)
    requires SubStream.IsRun(x, es) && Lasts(es, pane)
    requires var y := SubStream.Last(x, es);
      x.log <= y.log && SubStream.NoFrameOf(y.log, |x.log|, pane)
    ensures var y := SubStream.Last(x, es);
      pane in y.st.slots && Holds(y.st.slots[pane], us + Landed(x, es, pane))
    decreases |es|
  {
    hide SubStream.After, SubStream.Inv, Landed, Holds, Take;
    if es == [] {
      assert Landed(x, [], pane) == [] by {
        NothingLanded(x, pane, map[]);
      }
      assert us + [] == us;
    } else {
      var e, x1 := es[0], SubStream.After(x, es[0]);
      assert Lasts([e], pane) && Lasts(es[1..], pane);
      SubStream.InvKept(x, e);
      SubStream.LogKept(x, e);
      LogOnlyGrows(x1, es[1..]);
      var y := SubStream.Last(x, es);
      NotWritten(x, e, pane, y.log);
      StepGathers(x, e, pane, us);
      SlotGathers(x1, es[1..], pane, us + Landed(x, [e], pane));
      LandedStep(x, es, pane);
      var now, later := Landed(x, [e], pane), Landed(x1, es[1..], pane);
      assert us + now + later == us + (now + later);
    }
  }

  lemma NotWritten(x: Sys, e: Event, pane: int, log: seq<Entry>)
    requires SubStream.Enabled(x, e) && SubStream.After(x, e).log <= log && SubStream.NoFrameOf(log, |x.log|, pane)
    ensures Wrote(x, e, pane).None?
  {
    hide SubStream.After, Take, SubStream.NoFrameOf;
    if Wrote(x, e, pane).Some? {
      WrittenIsThere(x, e, pane, log);
    }
  }

  lemma WrittenIsThere(x: Sys, e: Event, pane: int, log: seq<Entry>)
    requires SubStream.Enabled(x, e) && SubStream.After(x, e).log <= log && Wrote(x, e, pane).Some?
    ensures !SubStream.NoFrameOf(log, |x.log|, pane)
  {
    hide SubStream.After, Take;
    TakeIsStep(x);
    assert log[|x.log|] == Take(x.st).1.e;
  }

  lemma LandedOne(x: Sys, e: Event, pane: int)
    requires SubStream.Enabled(x, e)
    ensures Landed(x, [e], pane) ==
      if e.OfferTo? && e.pane == pane && e.rows.Some? && pane in x.st.slots && pane !in x.st.closedPanes && IsOpen(x.st)
      then [Update(e.key, e.rows.value, e.hdr)]
      else []
  {
    hide SubStream.After;
    assert [e][1..] == [];
    assert Landed(SubStream.After(x, e), [], pane) == [];
  }

  lemma {:induction false} LogOnlyGrows(x: Sys, es: seq<Event>)
    requires SubStream.IsRun(x, es)
    ensures x.log <= SubStream.Last(x, es).log
    decreases |es|
  {
    hide SubStream.After, Take;
    if es != [] {
      SubStream.LogKept(x, es[0]);
      LogOnlyGrows(SubStream.After(x, es[0]), es[1..]);
    }
  }

  lemma StepGathers(x: Sys, e: Event, pane: int, us: seq<Update>)
    requires SubStream.Inv(x) && pane in x.st.slots && Holds(x.st.slots[pane], us)
    requires SubStream.Enabled(x, e) && Lasts([e], pane) && Wrote(x, e, pane).None?
    ensures var st' := SubStream.After(x, e).st;
      pane in st'.slots && Holds(st'.slots[pane], us + Landed(x, [e], pane))
  {
    hide SubOk, SubStream.HeadOk, SubStream.StreamOk, SubStream.TornOk, SubStream.NoLostWakeup, Take, OfferRows, Holds;
    assert [e][0] == e;
    assert us + [] == us;
    LandedOne(x, e, pane);
    if e.OfferTo? && e.pane == pane {
      OneMore(x.st.slots[pane], us, e.key, e.rows.value, e.hdr);
    } else {
      hide SubStream.After;
      OthersLeaveSlot(x, e, pane);
      ActivationHolds(x.st.slots[pane], SubStream.After(x, e).st.slots[pane], us);
    }
  }

  lemma ActivationHolds(sl: Slot, sl': Slot, us: seq<Update>)
    requires Holds(sl, us) && sl' == sl.(active := sl'.active)
    ensures Holds(sl', us)
  {}

  /** A frame of the pane that is written says exactly what the offers say that landed since
      the last one, or since the watch began; and there were some. */
  lemma FrameSaysOffers(x: Sys, es: seq<Event>, pane: int)
    requires SubStream.Inv(x) && pane in x.st.slots && IsClean(x.st.slots[pane]) && !x.st.slots[pane].full
    requires SubStream.IsRun(x, es) && Lasts(es, pane)
    requires var y := SubStream.Last(x, es);
      && x.log <= y.log && SubStream.NoFrameOf(y.log, |x.log|, pane)
      && SubStream.Enabled(y, SubStream.TakeNext) && Wrote(y, SubStream.TakeNext, pane).Some?
    ensures var y := SubStream.Last(x, es);
      && Says(Wrote(y, SubStream.TakeNext, pane).value, Landed(x, es, pane))
      && SubStream.After(y, SubStream.TakeNext).log == y.log + [Frame(pane, Wrote(y, SubStream.TakeNext, pane).value)]
      && pane in SubStream.After(y, SubStream.TakeNext).st.slots
      && Holds(SubStream.After(y, SubStream.TakeNext).st.slots[pane], [])
  {
    hide SubStream.Inv, Says, SubStream.After, Landed, Take;
    var y := SubStream.Last(x, es);
    SlotGathers(x, es, pane, []);
    assert [] + Landed(x, es, pane) == Landed(x, es, pane);
    SubStream.InvOverRuns(x, es);
    SubOkOf(y);
    TakeLeavesSlot(y.st, pane);
    TakeIsStep(y);
  }

  lemma SubOkOf(x: Sys)
    requires SubStream.Inv(x)
    ensures SubOk(x.st)
  {}
}
