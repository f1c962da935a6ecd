/**
What the acceptance evidence of `Frontier` means, said again without its definitions
(mux/controller_claude_input.go:640-865): the place after the baseline is the one every
story of the conversation gives, and the entry behind it is tied to the send.
*/
module Evidence {
  import opened Wrappers
  import opened Frontier
  import InputKey

  // ── where the new entries can start ──────────────────────────────────────

  /** A story of the conversation: what it was at the verify, what it is now, and from
      where on each screen showed it. */
  ghost predicate Tells(before: seq<EntryID>, after: seq<EntryID>, from: nat, p: nat,
                        base: seq<EntryID>, post: seq<EntryID>, topSeen: bool) {
    && Windows(before, after, from, p, topSeen)
    && from < |before| && p < |before|
    && before[from..] == base && after[p..] == post
  }

  /** Some story has its first new entry at s of the later screen: the last old one is just
      above it on that screen, or above the screen itself. */
  ghost predicate CouldStart(post: seq<EntryID>, base: seq<EntryID>, topSeen: bool, tail: bool, s: nat) {
    || (s == 0 && if base == [] then topSeen else tail)
    || exists before, after, from: nat, p: nat ::
         Tells(before, after, from, p, base, post, topSeen) && |before| - p == s
  }

  /** A place is where the end of the baseline is in some story, and there are no others. */
  lemma PlacedExactly(post: seq<EntryID>, base: seq<EntryID>, topSeen: bool, e: nat)
    ensures Placed(post, base, topSeen, e) <==>
      exists before, after, from: nat, p: nat ::
        Tells(before, after, from, p, base, post, topSeen) && |before| - p == e + 1
  {
    if Placed(post, base, topSeen, e) {
      var n := |base|;
      if e + 1 >= n {
        assert post[..e + 1][e + 1 - n..] == post[e + 1 - n..e + 1] == base[0..];
        assert Tells(post[..e + 1], post, e + 1 - n, 0, base, post, topSeen);
      } else {
        var p := n - (e + 1);
        var after := base[..p] + post;
        assert after[..n] == base[..p] + post[0..e + 1] == base;
        assert Tells(base, after, 0, p, base, post, topSeen);
      }
    }
    if before, after, from: nat, p: nat :|
      Tells(before, after, from, p, base, post, topSeen) && |before| - p == e + 1 {
      TruePlace(before, after, from, p, topSeen);
    }
  }

  lemma StartsArePlaces(post: seq<EntryID>, base: seq<EntryID>, topSeen: bool, tail: bool, s: nat)
    ensures CouldStart(post, base, topSeen, tail, s) <==>
      if s == 0 then PlacedAbove(base, topSeen, tail) else Placed(post, base, topSeen, s - 1)
  {
    hide Placed, Windows;
    if s > 0 {
      PlacedExactly(post, base, topSeen, s - 1);
    }
  }

  /** The answer is yes exactly when there is one place where the new entries can start,
      and is then that place. */
  lemma AnswersMeans(post: seq<EntryID>, base: seq<EntryID>, topSeen: bool, tail: bool, start: nat, ok: bool)
    requires Answers(post, base, topSeen, tail, start, ok)
    ensures ok ==> CouldStart(post, base, topSeen, tail, start)
    ensures ok ==> forall s: nat :: CouldStart(post, base, topSeen, tail, s) ==> s == start
    ensures !ok ==> forall s: nat :: CouldStart(post, base, topSeen, tail, s) ==>
      exists t: nat :: t != s && CouldStart(post, base, topSeen, tail, t)
  {
    hide Placed, CouldStart;
    forall s: nat
      ensures CouldStart(post, base, topSeen, tail, s) <==>
        if s == 0 then PlacedAbove(base, topSeen, tail) else Placed(post, base, topSeen, s - 1)
    {
      StartsArePlaces(post, base, topSeen, tail, s);
    }
    if !ok {
      forall s: nat | CouldStart(post, base, topSeen, tail, s)
        ensures exists t: nat :: t != s && CouldStart(post, base, topSeen, tail, t)
      {
        OtherStart(post, base, topSeen, tail, start, s);
      }
    } else {
      StartIs(post, base, topSeen, tail, start);
      forall s: nat | CouldStart(post, base, topSeen, tail, s) ensures s == start {
        if s > 0 {
          PlacedInRange(post, base, topSeen, s - 1);
        }
      }
    }
  }

  lemma StartIs(post: seq<EntryID>, base: seq<EntryID>, topSeen: bool, tail: bool, start: nat)
    requires Answers(post, base, topSeen, tail, start, true)
    ensures start == 0 <==> PlacedAbove(base, topSeen, tail)
  {}

  lemma PlacedInRange(post: seq<EntryID>, base: seq<EntryID>, topSeen: bool, e: int)
    requires Placed(post, base, topSeen, e)
    ensures 0 <= e < |post|
  {}

  lemma OtherStart(post: seq<EntryID>, base: seq<EntryID>, topSeen: bool, tail: bool, start: nat, s: nat)
    requires Answers(post, base, topSeen, tail, start, false) && CouldStart(post, base, topSeen, tail, s)
    requires forall t: nat ::
      CouldStart(post, base, topSeen, tail, t) <==>
        if t == 0 then PlacedAbove(base, topSeen, tail) else Placed(post, base, topSeen, t - 1)
    ensures exists t: nat :: t != s && CouldStart(post, base, topSeen, tail, t)
  {
    hide Placed, CouldStart;
    if PlacedAbove(base, topSeen, tail) {
      if s == 0 {
        var i :| 0 <= i < |post| && Placed(post, base, topSeen, i);
        assert CouldStart(post, base, topSeen, tail, i + 1);
      } else {
        assert CouldStart(post, base, topSeen, tail, 0);
      }
    } else {
      PlacedInRange(post, base, topSeen, s - 1);
      assert !OnlyPlace(post, base, topSeen, s - 1, |post|);
      var i :| 0 <= i < |post| && Placed(post, base, topSeen, i) && i != s - 1;
      assert CouldStart(post, base, topSeen, tail, i + 1);
    }
  }

  // ── what ties an entry to the send ───────────────────────────────────────

  /** The text on the screen is one of these, or one of them cut short after 48 runes or
      more. */
  ghost predicate ShowsOneOf(shown: string, keys: seq<string>) {
    && shown != ""
    && exists i :: 0 <= i < |keys| && |shown| <= |keys[i]| && keys[i][..|shown|] == shown
         && (|shown| == |keys[i]| || |shown| >= 48)
  }

  /** The entry is of the send's kind, and shows what the box showed or what was sent, as
      typed or as rendered, or the number of the paste. */
  ghost predicate IsTied(e: Entry, b: Baseline) {
    && e.id.key != "" && (e.id.shell <==> b.shell)
    && (|| ShowsOneOf(e.id.key, [b.verifiedKey, b.sentKey])
        || ShowsOneOf(e.rendered, [b.verifiedRendered, b.sentRendered])
        || (b.paste >= 1 && e.paste == b.paste))
  }

  lemma ShowsMeans(shown: string, v: string, w: string)
    ensures ShowsOneOf(shown, [v, w]) <==>
      shown != "" && (shown == v || shown == w || AbbreviatedBy(v, shown) || AbbreviatedBy(w, shown))
  {
    var keys := [v, w];
    if ShowsOneOf(shown, keys) {
      var i :| 0 <= i < |keys| && |shown| <= |keys[i]| && keys[i][..|shown|] == shown
        && (|shown| == |keys[i]| || |shown| >= 48);
      assert keys[i] == v || keys[i] == w;
      assert |shown| == |keys[i]| ==> keys[i] == shown;
    }
    if shown != "" && (shown == v || AbbreviatedBy(v, shown)) {
      assert keys[0] == v && v[..|shown|] == shown;
    }
    if shown != "" && (shown == w || AbbreviatedBy(w, shown)) {
      assert keys[1] == w && w[..|shown|] == shown;
    }
  }

  lemma TiedMatches(e: Entry, b: Baseline)
    ensures Matches(e, b) <==> IsTied(e, b)
  {
    hide ShowsOneOf;
    ShowsMeans(e.id.key, b.verifiedKey, b.sentKey);
    ShowsMeans(e.rendered, b.verifiedRendered, b.sentRendered);
  }

  // ── the verdicts ─────────────────────────────────────────────────────────

  /** There is one place where the new entries can start, and i is one of them. */
  ghost predicate IsNew(sc: Screen, b: Baseline, i: nat) {
    && i < |sc.prompts|
    && var tail := TailAtTop(sc, b.lastRows);
    exists start: nat ::
      && start <= i && CouldStart(IDs(sc.prompts), b.entries, b.topSeen, tail, start)
      && forall s: nat :: CouldStart(IDs(sc.prompts), b.entries, b.topSeen, tail, s) ==> s == start
  }

  /** A history verdict means that some new entry is tied to the send; and any that is
      gives the verdict. */
  lemma HistoryMeans(sc: Screen, b: Baseline)
    ensures HistoryEvidence(sc, b) <==> exists i: nat :: IsNew(sc, b, i) && IsTied(sc.prompts[i], b)
  {
    hide Answers, Matches, TailAtTop, CouldStart, IsTied;
    var post, tail := IDs(sc.prompts), TailAtTop(sc, b.lastRows);
    if HistoryEvidence(sc, b) {
      var start: nat, i: nat :|
        Answers(post, b.entries, b.topSeen, tail, start, true) && NewAndMatching(sc, b, start, i);
      AnswersMeans(post, b.entries, b.topSeen, tail, start, true);
      TiedMatches(sc.prompts[i], b);
      assert IsNew(sc, b, i);
    }
    if i: nat :| IsNew(sc, b, i) && IsTied(sc.prompts[i], b) {
      var start: nat :| start <= i && CouldStart(post, b.entries, b.topSeen, tail, start)
        && forall s: nat :: CouldStart(post, b.entries, b.topSeen, tail, s) ==> s == start;
      OnlyStartAnswers(post, b.entries, b.topSeen, tail, start);
      TiedMatches(sc.prompts[i], b);
      assert NewAndMatching(sc, b, start, i);
    }
  }

  lemma OnlyStartAnswers(post: seq<EntryID>, base: seq<EntryID>, topSeen: bool, tail: bool, start: nat)
    requires CouldStart(post, base, topSeen, tail, start)
    requires forall s: nat :: CouldStart(post, base, topSeen, tail, s) ==> s == start
    ensures Answers(post, base, topSeen, tail, start, true)
  {
    hide Placed, CouldStart;
    forall s: nat
      ensures CouldStart(post, base, topSeen, tail, s) <==>
        if s == 0 then PlacedAbove(base, topSeen, tail) else Placed(post, base, topSeen, s - 1)
    {
      StartsArePlaces(post, base, topSeen, tail, s);
    }
    forall i | 0 <= i < |post| && Placed(post, base, topSeen, i) ensures i + 1 == start {
      assert CouldStart(post, base, topSeen, tail, i + 1);
    }
    assert CouldStart(post, base, topSeen, tail, 0) <==> PlacedAbove(base, topSeen, tail);
    if start > 0 {
      PlacedInRange(post, base, topSeen, start - 1);
    }
  }

  /** A transcript verdict means a record read since the verify, of a prompt submitted in
      the verify's millisecond or later, that is what was sent or what the box showed. */
  lemma TranscriptMeans(m: Mark, b: Baseline)
    ensures TranscriptMark(m, b) <==>
      && m.seqNo >= b.transcriptSeq + 1
      && m.submitted.Some? && m.submitted.value / 1_000_000 >= b.at / 1_000_000
      && m.key in {b.sentKey, b.verifiedKey} - {""}
  {}

  /** An in-the-box verdict needs a visible box that still holds what was verified: the text,
      or the paste's number. */
  lemma BoxMeans(sc: Screen, b: Baseline)
    ensures InTheBox(sc, b) <==>
      && |b.verifiedKey| > 0 && sc.boxVisible
      && (sc.boxKey == b.verifiedKey || exists i :: 0 <= i < |sc.boxPastes| && sc.boxPastes[i] == b.paste >= 1)
  {}

  // ── the tail at the top ──────────────────────────────────────────────────

  /** The row, without the blanks at its end, is this text. */
  predicate ReadsAs(row: string, text: string) {
    && text <= row && (forall i :: |text| <= i < |row| ==> row[i] == ' ')
    && (text != "" ==> text[|text| - 1] != ' ')
  }

  lemma {:induction false} TrimRightMeans(s: string, t: string)
    ensures TrimRight(s) == t <==> ReadsAs(s, t)
    decreases |s|
  {
    if s != [] && s[|s| - 1] == ' ' {
      TrimRightMeans(s[..|s| - 1], t);
    }
  }

  /** The first k rows, and no more, go on with an entry; no prompt begins among them. */
  predicate ContinuesFor(sc: Screen, k: nat) {
    && k <= |sc.conv| && (sc.prompts != [] ==> k <= sc.prompts[0].row)
    && (forall i :: 0 <= i < k ==> sc.conv[i].continues)
    && (k == |sc.conv| || (sc.prompts != [] && sc.prompts[0].row == k) || !sc.conv[k].continues)
  }

  /** The tail is at the top exactly when the screen begins with rows that go on with an
      entry and are, row for row, the last rows of the baseline's last entry, but not
      all of it; and the first of them is not blank. */
  lemma TailMeans(sc: Screen, last: seq<string>)
    ensures TailAtTop(sc, last) <==>
      exists k: nat ::
        && ContinuesFor(sc, k) && 0 < k < |last|
        && (exists i :: 0 <= i < |sc.conv[0].text| && !InputKey.IsSpace(sc.conv[0].text[i]))
        && forall i :: 0 <= i < k ==> ReadsAs(sc.conv[i].text, last[|last| - k + i])
  {
    hide ReadsAs, TrimRight, InputKey.IsSpace;
    forall k: nat ensures IsTailLength(sc, k) <==> ContinuesFor(sc, k) {}
    forall s, t ensures TrimRight(s) == t <==> ReadsAs(s, t) {
      TrimRightMeans(s, t);
    }
    if sc.conv != [] {
      var row := sc.conv[0].text;
      assert Blank(row) <==> forall i :: 0 <= i < |row| ==> InputKey.IsSpace(row[i]);
    }
  }
}
