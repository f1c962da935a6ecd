/**
Which prompts on a later screen are new (mux/controller_claude_input.go:640-865).

`Entry` is a user prompt as the screen shows it and `EntryID` its identity. Rows are
given as their text and whether they continue an entry; the marker expressions
behind that are not part of this model.
*/
module Frontier {
  import opened Wrappers
  import InputKey

  const HISTORY_MATCH_MIN := 48

  datatype EntryID = EntryID(shell: bool, key: string)
  datatype Entry = Entry(id: EntryID, rendered: string, paste: int, row: nat)
  datatype Row = Row(text: string, continues: bool)
  datatype Screen = Screen(conv: seq<Row>, prompts: seq<Entry>, boxVisible: bool, boxKey: string, boxPastes: seq<int>)

  /** What the verify recorded; at is in nanoseconds. */
  datatype Baseline = Baseline(
    at: int, verifiedKey: string, sentKey: string, paste: int,
    entries: seq<EntryID>, topSeen: bool, lastRows: seq<string>, transcriptSeq: nat,
    verifiedRendered: string, sentRendered: string, shell: bool)

  /** A transcript record; None is a record without a timestamp. */
  datatype Mark = Mark(seqNo: nat, submitted: Option<int>, key: string)

  function IDs(es: seq<Entry>): (ids: seq<EntryID>)
    ensures |ids| == |es| && forall i :: 0 <= i < |es| ==> ids[i] == es[i].id
  {
    seq(|es|, i requires 0 <= i < |es| => es[i].id)
  }

  // ── placing the baseline ─────────────────────────────────────────────────

  function Min(a: int, b: int): int {
    if a < b then a else b
  }

  /** The baseline's last entry may be the one at e: as much of the baseline as fits
      above e is there, and nothing is above a baseline that began at the top. */
  predicate Placed(post: seq<EntryID>, base: seq<EntryID>, topSeen: bool, e: int) {
    && 0 <= e < |post| && base != []
    && var n := |base|;
       var l := Min(n, e + 1);
       && post[e - l + 1..e + 1] == base[n - l..]
       && (topSeen ==> e - n + 1 <= 0)
  }

  /** The baseline ends above everything on the screen. */
  predicate PlacedAbove(base: seq<EntryID>, topSeen: bool, tail: bool) {
    if base == [] then topSeen else tail
  }

  predicate OnlyPlace(post: seq<EntryID>, base: seq<EntryID>, topSeen: bool, e: int, upto: int) {
    && Placed(post, base, topSeen, e)
    && forall i :: 0 <= i < upto && Placed(post, base, topSeen, i) ==> i == e
  }

  predicate NoPlace(post: seq<EntryID>, base: seq<EntryID>, topSeen: bool, upto: int) {
    forall i :: 0 <= i < upto ==> !Placed(post, base, topSeen, i)
  }

  /** The answer: the place after the baseline when there is exactly one. */
  predicate Answers(post: seq<EntryID>, base: seq<EntryID>, topSeen: bool, tail: bool, start: nat, ok: bool) {
    && start <= |post|
    && (ok ==>
          if PlacedAbove(base, topSeen, tail) then start == 0 && NoPlace(post, base, topSeen, |post|)
          else OnlyPlace(post, base, topSeen, start - 1, |post|))
    && (!ok ==>
          if PlacedAbove(base, topSeen, tail) then !NoPlace(post, base, topSeen, |post|)
          else forall e :: 0 <= e < |post| ==> !OnlyPlace(post, base, topSeen, e, |post|))
  }

  lemma PlacedMeans(post: seq<EntryID>, base: seq<EntryID>, topSeen: bool, e: nat)
    requires e < |post| && base != []
    ensures var l := Min(|base|, e + 1);
      Placed(post, base, topSeen, e) <==>
        post[e - l + 1..e + 1] == base[|base| - l..] && !(topSeen && e - |base| + 1 > 0)
  {}

  /** What has been found among the first upto candidates, the last just before start. */
  ghost predicate Found(post: seq<EntryID>, base: seq<EntryID>, topSeen: bool, upto: int, found: int, start: int) {
    && 0 <= start <= upto && found >= 0
    && (found == 0 ==> start == 0 && NoPlace(post, base, topSeen, upto))
    && (found == 1 ==> start > 0 && OnlyPlace(post, base, topSeen, start - 1, upto))
    && (found >= 2 ==>
          exists i, j :: 0 <= i < j < upto && Placed(post, base, topSeen, i) && Placed(post, base, topSeen, j))
  }

  lemma FoundNext(post: seq<EntryID>, base: seq<EntryID>, topSeen: bool, e: nat, found: int, start: int)
    requires Found(post, base, topSeen, e, found, start)
    ensures if Placed(post, base, topSeen, e) then Found(post, base, topSeen, e + 1, found + 1, e + 1)
            else Found(post, base, topSeen, e + 1, found, start)
  {
    hide Placed;
  }

  lemma FoundNothing(post: seq<EntryID>, base: seq<EntryID>, topSeen: bool)
    ensures Found(post, base, topSeen, 0, 0, 0)
    ensures base == [] ==> Found(post, base, topSeen, |post|, 0, 0)
  {}

  lemma FoundAnswers(post: seq<EntryID>, base: seq<EntryID>, topSeen: bool, tail: bool, found: int, start: int)
    requires Found(post, base, topSeen, |post|, found, start)
    ensures if PlacedAbove(base, topSeen, tail) then Answers(post, base, topSeen, tail, 0, found == 0)
            else Answers(post, base, topSeen, tail, start, found == 1)
  {
    hide Placed;
  }

  /** newEntriesFrom. */
  method NewEntriesFrom(sc: Screen, b: Baseline) returns (start: nat, ok: bool)
    ensures Answers(IDs(sc.prompts), b.entries, b.topSeen, TailAtTop(sc, b.lastRows), start, ok)
  {
    hide Placed, TailAtTop, Answers, Found, IDs;
    var post, base := IDs(sc.prompts), b.entries;
    var n, found, e := |base|, 0, 0;
    start := 0;
    FoundNothing(post, base, b.topSeen);
    while n > 0 && e < |post|
      invariant 0 <= e <= |post| && Found(post, base, b.topSeen, e, found, start)
      invariant n == 0 ==> found == 0 && start == 0
    {
      var l := Min(n, e + 1);
      PlacedMeans(post, base, b.topSeen, e);
      FoundNext(post, base, b.topSeen, e, found, start);
      if post[e - l + 1..e + 1] == base[n - l..] && !(b.topSeen && e - n + 1 > 0) {
        found, start := found + 1, e + 1;
      }
      e := e + 1;
    }
    var tail := ReadTailAtTop(sc, b.lastRows);
    FoundAnswers(post, base, b.topSeen, tail, found, start);
    if (n == 0 && b.topSeen) || (n > 0 && tail) {
      found, start := found + 1, 0;
    }
    ok := found == 1;
  }

  // ── the last entry's tail at the top of the screen ───────────────────────

  function TrimRight(s: string): (t: string)
    ensures |t| <= |s| && t == s[..|t|]
  {
    if s == [] || s[|s| - 1] != ' ' then s else TrimRight(s[..|s| - 1])
  }

  predicate Blank(s: string) {
    forall c :: c in s ==> InputKey.IsSpace(c)
  }

  function FirstPromptRow(sc: Screen): nat {
    if sc.prompts == [] then |sc.conv| else Min(sc.prompts[0].row, |sc.conv|)
  }

  /** How many rows at the top go on with an entry. */
  predicate IsTailLength(sc: Screen, k: nat) {
    && k <= FirstPromptRow(sc)
    && (forall i :: 0 <= i < k ==> sc.conv[i].continues)
    && (k < FirstPromptRow(sc) ==> !sc.conv[k].continues)
  }

  predicate TailMatches(sc: Screen, last: seq<string>, k: nat) {
    && 0 < k < |last| && k <= |sc.conv|
    && forall i :: 0 <= i < k ==> TrimRight(sc.conv[i].text) == last[|last| - k + i]
  }

  /** The rows above the first prompt are the last entry's last rows, without its
      first. */
  ghost predicate TailAtTop(sc: Screen, last: seq<string>) {
    && sc.conv != [] && !Blank(sc.conv[0].text)
    && exists k: nat :: IsTailLength(sc, k) && TailMatches(sc, last, k)
  }

  method ReadTailAtTop(sc: Screen, last: seq<string>) returns (r: bool)
    ensures r <==> TailAtTop(sc, last)
  {
    if |last| < 2 || |sc.conv| == 0 || Blank(sc.conv[0].text) {
      return false;
    }
    var first := FirstPromptRow(sc);
    var k := 0;
    while k < first && sc.conv[k].continues
      invariant 0 <= k <= first
      invariant forall i :: 0 <= i < k ==> sc.conv[i].continues
    {
      k := k + 1;
    }
    assert IsTailLength(sc, k);
    assert forall j: nat :: IsTailLength(sc, j) ==> j == k;
    if k == 0 || k >= |last| {
      return false;
    }
    for i := 0 to k
      invariant forall j :: 0 <= j < i ==> TrimRight(sc.conv[j].text) == last[|last| - k + j]
    {
      if TrimRight(sc.conv[i].text) != last[|last| - k + i] {
        assert !TailMatches(sc, last, k);
        return false;
      }
    }
    assert TailMatches(sc, last, k);
    r := true;
  }

  // ── what the answer is worth ─────────────────────────────────────────────

  /** The prompts are only ever appended to, and each screen shows the last of them:
      all those before the verify from b on, and all those later from p on. Had the
      screen begun at the top, b would be 0. */
  predicate Windows(before: seq<EntryID>, after: seq<EntryID>, b: nat, p: nat, topSeen: bool) {
    && b <= |before| <= |after| && p <= |after|
    && before == after[..|before|]
    && (topSeen ==> b == 0)
  }

  /** The baseline's true end, when it is on the later screen, is a place. */
  lemma TruePlace(before: seq<EntryID>, after: seq<EntryID>, b: nat, p: nat, topSeen: bool)
    requires Windows(before, after, b, p, topSeen) && b < |before| && p < |before|
    ensures Placed(after[p..], before[b..], topSeen, |before| - 1 - p)
  {
    var base, post, e := before[b..], after[p..], |before| - 1 - p;
    var n := |base|;
    var l := Min(n, e + 1);
    forall k | e - l + 1 <= k < e + 1 ensures post[k] == base[k - (e - l + 1) + (n - l)] {
      assert before[p + k] == after[p + k];
    }
    EqualSlices(post, e - l + 1, base, n - l, l);
  }

  lemma EqualSlices(s: seq<EntryID>, i: nat, t: seq<EntryID>, j: nat, l: nat)
    requires i + l <= |s| && j + l == |t|
    requires forall k :: i <= k < i + l ==> s[k] == t[k - i + j]
    ensures s[i..i + l] == t[j..]
  {
    forall m | 0 <= m < l ensures s[i..i + l][m] == t[j..][m] {
      assert s[i + m] == t[i + m - i + j];
    }
  }

  /** Frontier soundness: every entry from start on was appended after the verify.
      Whatever the tail at the top says, it cannot make this false. */
  lemma FrontierSound(before: seq<EntryID>, after: seq<EntryID>, b: nat, p: nat, topSeen: bool, tail: bool, start: nat)
    requires Windows(before, after, b, p, topSeen)
    requires Answers(after[p..], before[b..], topSeen, tail, start, true)
    ensures p + start >= |before|
  {
    if b < |before| && p < |before| {
      TruePlace(before, after, b, p, topSeen);
    }
  }

  /** While the baseline's end is still on the screen, the answer is yes exactly when
      no other place and no tail competes with it, and is then the exact frontier. */
  lemma FrontierExact(before: seq<EntryID>, after: seq<EntryID>, b: nat, p: nat, topSeen: bool, tail: bool,
                      start: nat, ok: bool)
    requires Windows(before, after, b, p, topSeen) && b < |before| && p < |before|
    requires Answers(after[p..], before[b..], topSeen, tail, start, ok)
    ensures ok <==> !tail && OnlyPlace(after[p..], before[b..], topSeen, |before| - 1 - p, |after| - p)
    ensures ok ==> p + start == |before|
  {
    TruePlace(before, after, b, p, topSeen);
  }

  /** When a yes is exact, whatever it was placed by: if and only if the baseline's end
      is on the later screen, or the answer came of what is above that screen (a tail
      at its top, or an empty baseline of a conversation seen from its top). Any other
      yes comes of a look-alike behind entries that are new too, and overlooks them. */
  lemma FrontierExactly(before: seq<EntryID>, after: seq<EntryID>, b: nat, p: nat, topSeen: bool, tail: bool,
                        start: nat)
    requires Windows(before, after, b, p, topSeen)
    requires Answers(after[p..], before[b..], topSeen, tail, start, true)
    ensures p + start == (if p < |before| then |before| else p) <==>
      (b < |before| && p < |before|) || PlacedAbove(before[b..], topSeen, tail)
    ensures p + start != (if p < |before| then |before| else p) ==> p >= |before| && start > 0
  {
    if b < |before| && p < |before| {
      TruePlace(before, after, b, p, topSeen);
    }
  }

  /** In particular when the baseline's last entry looks like no other on screen. */
  lemma FrontierWhenUnique(before: seq<EntryID>, after: seq<EntryID>, b: nat, p: nat, topSeen: bool, start: nat,
                           ok: bool)
    requires Windows(before, after, b, p, topSeen) && b < |before| && p < |before|
    requires Answers(after[p..], before[b..], topSeen, false, start, ok)
    requires forall i :: p <= i < |after| && after[i] == before[|before| - 1] ==> i == |before| - 1
    ensures ok && p + start == |before|
  {
    hide Placed, OnlyPlace, Answers;
    var base, post, end := before[b..], after[p..], |before| - 1 - p;
    TruePlace(before, after, b, p, topSeen);
    forall e | 0 <= e < |post| && Placed(post, base, topSeen, e) ensures e == end {
      PlacedLast(post, base, topSeen, e);
      assert post[e] == after[p + e] && base[|base| - 1] == before[|before| - 1];
    }
    OnlyOne(post, base, topSeen, end);
    FrontierExact(before, after, b, p, topSeen, false, start, ok);
  }

  lemma OnlyOne(post: seq<EntryID>, base: seq<EntryID>, topSeen: bool, e: int)
    requires Placed(post, base, topSeen, e)
    requires forall i :: 0 <= i < |post| && Placed(post, base, topSeen, i) ==> i == e
    ensures OnlyPlace(post, base, topSeen, e, |post|)
  {}

  /** At a place stands the baseline's last entry. */
  lemma PlacedLast(post: seq<EntryID>, base: seq<EntryID>, topSeen: bool, e: nat)
    requires Placed(post, base, topSeen, e)
    ensures post[e] == base[|base| - 1]
  {
    var l := Min(|base|, e + 1);
    assert post[e - l + 1..e + 1][l - 1] == post[e];
    assert base[|base| - l..][l - 1] == base[|base| - 1];
  }

  /** Once that end has scrolled away, an answer may overlook new entries, though it
      never takes an old one for new: here a, then b and a again, seen from b on. */
  lemma ScrolledAwayMayOverlook()
    ensures exists a, b: EntryID ::
      && Windows([a], [a, b, a], 0, 1, false)
      && Answers([a, b, a][1..], [a], false, false, 2, true)
  {
    var a, b := EntryID(false, "a"), EntryID(false, "b");
    assert a.key[0] != b.key[0];
    var post := [b, a];
    assert [a, b, a][1..] == post && [a, b, a][..1] == [a];
    assert post[1..2] == [a] && post[0..1] == [b] && [a][0..] == [a];
    assert Placed(post, [a], false, 1);
    assert post[0..1][0] != [a][0];
    assert !Placed(post, [a], false, 0);
    assert OnlyPlace(post, [a], false, 1, 2);
    assert Windows([a], [a, b, a], 0, 1, false) && Answers([a, b, a][1..], [a], false, false, 2, true);
  }

  // ── evidence ─────────────────────────────────────────────────────────────

  predicate AbbreviatedBy(full: string, part: string) {
    full != "" && part != "" && |part| >= HISTORY_MATCH_MIN && part <= full
  }

  /** The entry carries the send's content. */
  predicate Matches(e: Entry, b: Baseline) {
    && e.id.key != "" && e.id.shell == b.shell
    && (|| e.id.key == b.verifiedKey || e.id.key == b.sentKey
        || (e.rendered != "" && (e.rendered == b.verifiedRendered || e.rendered == b.sentRendered))
        || (b.paste > 0 && e.paste == b.paste)
        || AbbreviatedBy(b.verifiedKey, e.id.key) || AbbreviatedBy(b.sentKey, e.id.key)
        || AbbreviatedBy(b.verifiedRendered, e.rendered) || AbbreviatedBy(b.sentRendered, e.rendered))
  }

  method CountMatches(es: seq<Entry>, b: Baseline) returns (n: nat)
    ensures n > 0 <==> exists i :: 0 <= i < |es| && Matches(es[i], b)
  {
    n := 0;
    for i := 0 to |es|
      invariant n > 0 <==> exists j :: 0 <= j < i && Matches(es[j], b)
    {
      if Matches(es[i], b) {
        n := n + 1;
      }
    }
  }

  /** newHistoryEntry. */
  method NewHistoryEntry(sc: Screen, b: Baseline) returns (r: bool)
    ensures r <==> HistoryEvidence(sc, b)
  {
    hide Answers, TailAtTop, Matches;
    var start, ok := NewEntriesFrom(sc, b);
    ghost var post, tail := IDs(sc.prompts), TailAtTop(sc, b.lastRows);
    forall s: nat | Answers(post, b.entries, b.topSeen, tail, s, true) ensures ok && s == start {
      AnswersAgree(post, b.entries, b.topSeen, tail, start, ok, s, true);
    }
    if !ok {
      return false;
    }
    AnswerInRange(post, b.entries, b.topSeen, tail, start);
    var n := CountMatches(sc.prompts[start..], b);
    assert forall i :: start <= i < |sc.prompts| ==> sc.prompts[i] == sc.prompts[start..][i - start];
    assert forall i :: 0 <= i < |sc.prompts[start..]| ==> sc.prompts[start..][i] == sc.prompts[start + i];
    r := n > 0;
    if r {
      var i :| 0 <= i < |sc.prompts[start..]| && Matches(sc.prompts[start..][i], b);
      assert NewAndMatching(sc, b, start, start + i);
    }
  }

  lemma AnswerInRange(post: seq<EntryID>, base: seq<EntryID>, topSeen: bool, tail: bool, start: nat)
    requires Answers(post, base, topSeen, tail, start, true)
    ensures start <= |post|
  {}

  /** There is one answer. */
  lemma AnswersAgree(post: seq<EntryID>, base: seq<EntryID>, topSeen: bool, tail: bool, s: nat, ok: bool, s': nat,
                     ok': bool)
    requires Answers(post, base, topSeen, tail, s, ok) && Answers(post, base, topSeen, tail, s', ok')
    ensures ok == ok' && (ok ==> s == s')
  {}

  ghost predicate NewAndMatching(sc: Screen, b: Baseline, start: nat, i: nat) {
    start <= i < |sc.prompts| && Matches(sc.prompts[i], b)
  }

  ghost predicate HistoryEvidence(sc: Screen, b: Baseline) {
    exists start: nat, i: nat ::
      Answers(IDs(sc.prompts), b.entries, b.topSeen, TailAtTop(sc, b.lastRows), start, true)
        && NewAndMatching(sc, b, start, i)
  }

  predicate TranscriptMark(m: Mark, b: Baseline) {
    && m.seqNo > b.transcriptSeq
    && m.submitted.Some? && m.submitted.value >= b.at - b.at % 1_000_000
    && m.key != "" && (m.key == b.sentKey || m.key == b.verifiedKey)
  }

  predicate InTheBox(sc: Screen, b: Baseline) {
    && sc.boxVisible && b.verifiedKey != ""
    && (sc.boxKey == b.verifiedKey || (b.paste > 0 && b.paste in sc.boxPastes))
  }

  datatype Verdict = Nothing | TakenByHistory | TakenByTranscript | InBox

  /** acceptVerdict: history, then transcript, then the box. */
  method AcceptVerdict(sc: Screen, b: Baseline, marks: seq<Mark>) returns (v: Verdict)
    ensures v == TakenByHistory <==> HistoryEvidence(sc, b)
    ensures v == TakenByTranscript <==> !HistoryEvidence(sc, b) && exists m :: m in marks && TranscriptMark(m, b)
    ensures v == InBox <==>
      !HistoryEvidence(sc, b) && (forall m :: m in marks ==> !TranscriptMark(m, b)) && InTheBox(sc, b)
  {
    var history := NewHistoryEntry(sc, b);
    if history {
      return TakenByHistory;
    }
    for i := 0 to |marks|
      invariant forall j :: 0 <= j < i ==> !TranscriptMark(marks[j], b)
    {
      if TranscriptMark(marks[i], b) {
        return TakenByTranscript;
      }
    }
    v := if InTheBox(sc, b) then InBox else Nothing;
  }

  /** A history verdict is attributable: the baseline taken on one screen of the
      conversation and the verdict on a later one, some prompt that was not there at
      the verify carries the send's content. */
  lemma HistoryIsNew(before: seq<EntryID>, all: seq<Entry>, from: nat, p: nat, sc: Screen, b: Baseline)
    requires p <= |all| && sc.prompts == all[p..]
    requires Windows(before, IDs(all), from, p, b.topSeen) && b.entries == before[from..]
    requires HistoryEvidence(sc, b)
    ensures exists j :: |before| <= j < |all| && Matches(all[j], b)
  {
    hide Answers, Matches, TailAtTop;
    var start: nat, i: nat :|
      Answers(IDs(sc.prompts), b.entries, b.topSeen, TailAtTop(sc, b.lastRows), start, true)
        && NewAndMatching(sc, b, start, i);
    assert IDs(sc.prompts) == IDs(all)[p..];
    FrontierSound(before, IDs(all), from, p, b.topSeen, TailAtTop(sc, b.lastRows), start);
    assert all[p + i] == sc.prompts[i];
  }
}
