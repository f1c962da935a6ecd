# magmux in Dafny

magmux is a terminal multiplexer that an agent can drive: it runs Claude Code and
other commands in panes, decides which of them take input, streams their screens to
clients, and shows a control panel of what was asked and what was seen. This project
models the parts of it that keep an invariant over unbounded runs or inputs, and proves
those invariants. `dafny verify dfyconfig.toml` checks all of it.

Seven components, each in its own group of modules:

- **The shell launch and its rewrite** (`ShellLexer`, `ShellScan`, `ShellGrammar`,
  `ShellLines`, `ShellQuoting`, `ShellLocality`, `ShellSpans`, `ClaudeLaunch`, `LaunchLaws`,
  `SettingsSplice`, `ClaudeSplice`, `ClaudeSettings`, `SettingsLaws`, `SettingsRewrite`,
  `RewriteTheorem`, `ArgvRewrite`, `JsonQuote`). A quote-aware lexer of shell strings finds
  the one `claude` a pane runs; the editor-mode rewrite edits the string so that the last
  `--settings` carries merged settings. The scanner loops are proved equal to recursive
  functions on suffixes. Those are proved to read exactly the lines of a grammar, after
  sections 2.2, 2.3, 2.6 and 2.7 of the Shell Command Language of POSIX.1-2017, with the
  values that quoting gives them, and to be local; what a direct launch is and which
  arguments are settings is said again of the words alone. The main theorem reads every
  rewritten string back and finds the same command with one argument changed, and the
  settings in it to be those that were merged. `shellQuoteJSON` is related to an
  independent reader of the string escapes of section 7 of RFC 8259.
- **The hub** (`Lane`, `LaneProtocol`, `LaneInvariant`, `LaneTheorem`, `LaneProgress`,
  `LaneCalls`, `HubCalls`, `FrameSlots`, `Sub`, `SubLaws`, `SubObject`, `SubStream`,
  `SubSteps`, `FrameStream`, `FrameTurns`, `ReplyPlacement`). Two step systems, one critical
  section a step: delivery to one (subscriber, pane), with every call, every lane object and
  Quiesce; and one subscriber with its writer and its producers. The objects' methods are
  proved against the functions the steps use; what the frames of a run show, and when, is
  said of the offers and the log alone.
- **The layout** (`LayoutTree`, `Boxes`, `LayoutBoxes`, `Layout`, `LayoutLaws`, `Grid`,
  `GridBuild`). Panes with parent and child pointers on the heap; open, close, hide and show
  are proved to turn the tree the pointers spell out into the tree it should be, and to
  keep the whole layout valid and, once it was reflowed, every box where the screen puts
  it. The grid builder has an exact feasibility bound and tiles the screen.
- **Acceptance evidence** (`Frontier`, `Evidence`): which prompts on a later screen are new,
  by every story of the conversation the screens allow, and what ties one to a send.
- **The bounded transcript parse** (`Transcript`, `TranscriptTurns`, `TranscriptAnswers`,
  `TranscriptAccount`): what the turns of a transcript are, that streaming within bounds
  agrees with trimming the whole, and what its byte account is worth.
- **The row encoder** (`RowEncoder`): text and style runs decode back to the cells.
- **The control-panel ledger** (`ControlLedger`, `LedgerLaws`, `LedgerSteps`) and **the
  wrap-independent key** (`InputKey`, `KeyLaws`).

## How it is modelled

Code that updates fields is a class whose methods state the new state as a function of the
old; what the source promises is then proved about those functions. Loops of the source are
loops here. The rest is functions and lemmas.

- A shell string is a sequence of characters that stand for its bytes. A text elsewhere is
  a sequence of Unicode scalar values, with its UTF-8 length where a byte count matters.
- In the lane system a drainer that waits may look again, or find its idle timer fired, at
  any moment: its wake channel, context and timer only decide when. A timeout may answer a
  call at any moment of its run. In the subscriber system a write may succeed, be refused
  cleanly or be torn; the signal to the writer is a step of its own, owed until it happens.
- Messages are never nil. Deadlines, close reasons and times are left out.
- Ratios are reals, and the conversion to an integer drops the fraction.
- `Merge` stands for mergeEditorMode on a JSON text, and `Copy` for finding, reading, merging
  and copying a settings file; both are arbitrary functions that may refuse.
- Spawning a pane always succeeds. Decoded transcript entries and the rows of a parsed screen
  are inputs.

## Where the code and its comments, or a likely reading, part

- mux/control.go:819 says an observation closes the newest open step. The loop stops at the
  last step, done or not (`ControlLedger.ClosesTheLastStep`), so a step still open when the
  next one is sent is left open for as long as it is kept: `LedgerSteps.StrandedForGood`. A
  send leaves one behind if and only if the last step is open: `LedgerSteps.SendStrandsIff`.
- mux/control.go:876-891 stores any negative number as the filter, not only -1. The filter is
  then -1 or a pane with a row if and only if the number given is at least -1
  (`ControlLedger.ControlPanel.SetFilter`); after a cycle step it always is.
- `newEntriesFrom` never takes an old entry for a new one (`Frontier.FrontierSound`), but a yes
  need not be the exact frontier. It is if and only if the baseline's last entry is still on
  the screen, or the answer came of what is above the screen, a tail at its top or an empty
  baseline seen from the top: `Frontier.FrontierExactly`. Otherwise a look-alike was taken
  for that entry, as in `Frontier.ScrolledAwayMayOverlook`.
- hub/watch.go:244-247 says a frame cannot be written before the answer that announced the
  subscription. For a live writer and a slot that has, or can be offered, a frame, that holds
  of the frames of the pane if and only if there is an answer and it is queued, the Sub being
  open with room for it: `ReplyPlacement.RepliedFirstExactly`. The slot is activated in any
  case; a frame of a slot that was not active before needs no other activation.
- mux/dynpanes.go:10-13 says the least size of a pane is enforced on both halves of a split. It
  is when the open is planned (`Layout.Magmux.PlanOpen`); after the fork only the target is
  checked again, so both halves are usable if and only if the target's box still takes the
  split (`Layout.Magmux.Publish`). Two opens planned on one 80 column pane leave panes of 20
  and 19 columns: `Layout.Magmux.OpenTwice`, `Boxes.FitsOnceNotTwice`.
- mux/grid.go:190-193 says no child is spawned for a layout known to be impossible. Each split
  looks only at its own two halves, so a refused grid may have started panes:
  `Grid.RefusedWithPanes`. Exactly when is `Grid.RefusedStarts`.
- Merging a notify-mode offer over pending rows loses those rows; the two modes refine the
  stream only apart: `FrameSlots.RawOnRows`.
- `shellQuoteJSON` keeps the meaning of a text if and only if the text is compact:
  `JsonQuote.EscapeMeansExactly`. Its callers always meet that, for they pass it what
  json.Marshal gave.
- A window of a row that cuts a wide character does not decode to its columns; every other
  window does: `RowEncoder.WindowDecodesExactly`. A line starts at the first column, so it
  can cut at its right end alone, where it lays out one column too long:
  `RowEncoder.CutRightIsLong`, `RowEncoder.LineDecodesExactly`.
- mux/controller_claude.go:814-816 resets `open` when the list of turns becomes empty; the
  loop always keeps one turn, so the branch is not reachable and not in the model.
- mux/controller_claude.go:799 calls `sizes` the bytes retained per turn. A result that replaces
  another is charged on top of it, so they are if and only if no result was filed on a call
  that had one: `TranscriptAccount.ExactlyWhenAnsweredOnce`. Then a turn can be dropped that
  fits the budget by the bytes held: `TranscriptAccount.ReplacedResultIsCharged`.

## Model

| member | source | states |
|---|---|---|
| ShellScan.LexShell | mux/claude_launch.go:311-362 | The loop over the whole string computes exactly the specification lexer `Lex`: same tokens, spans, literal texts, and unparsed on the same strings; it terminates without an index out of range |
| ShellScan.ReadWordAt | mux/claude_launch.go:427-467 | The word loop, over text it only ever reads forwards, agrees with the recursive `ReadWord`, its literal text and literal flag included |
| ShellScan.ReadDoubleAt | mux/claude_launch.go:471-504 | The body of a double-quoted string, with its nested expansions, ends where `Double` says and adds the same text |
| ShellScan.SkipExpansionAt | mux/claude_launch.go:509-530 | `$`, `${`, `$(` and backquotes are skipped to where `Expansion` says, mutually recursive with the other scanners |
| ShellScan.SkipNestedAt | mux/claude_launch.go:534-578 | Brackets, quotes inside them and backquotes are balanced as `Nested` says |
| ShellScan.LexRedirAt | mux/claude_launch.go:379-423 | A redirection takes its operator, blanks and target word, or is refused |
| ShellSpans.LexSpanned | mux/claude_launch.go:311-362 | A line that lexes is its tokens, each of a non-empty in-bounds span, plus gaps that hold only blanks, line continuations and comments |
| ShellSpans.SpannedOrdered | mux/claude_launch.go:311-362 | So any two token spans are ordered and disjoint |
| ShellLocality.NextStepStable | mux/claude_launch.go:311-362 | What the lexer reads at the front of a text depends on that part of the text alone, and on whether the word goes on behind it |
| ShellLocality.LexSplit | mux/claude_launch.go:311-362 | Lexing to a cut and then from the cut is lexing the whole |
| ShellLocality.TokenCuts | mux/claude_launch.go:311-362 | Every token start and end is such a cut |
| ShellLocality.LexToStable | mux/claude_launch.go:311-362 | Two lines that agree up to a cut have the same tokens up to it, if each ends or starts a word there |
| ShellLocality.LexShift | mux/claude_launch.go:311-362 | Moving a text moves its tokens, and changes nothing else of them |
| ShellGrammar.TextReads | mux/claude_launch.go:427-578 | Every word there is to write, with any quoting, escapes and nested expansions, is read to its end with exactly the value of its pieces, and as literal exactly when none is an expansion |
| ShellGrammar.TextOf | mux/claude_launch.go:427-578 | And whatever is read as a word was written as one |
| ShellLines.LinesLex | mux/claude_launch.go:262-423 | Every line of blanks, continuations, comments, operators, redirections and words lexes to exactly the tokens of its items |
| ShellLines.LexedLine | mux/claude_launch.go:262-423 | And the lexer reads no other line |
| ShellLines.AssignNameMeans | mux/claude_launch.go:266-280 | A word is an assignment exactly when it is written with a shell name and an equals sign in front |
| ShellQuoting.DoubleQuotes | mux/claude_launch.go:471-504 | Any text between double quotes, with `"`, backslash, `$` and backquote escaped, stands for exactly that text in front of anything |
| ShellQuoting.LoneBackslash | mux/claude_launch.go:471-504 | A backslash before any other byte between double quotes stays in the value |
| ShellQuoting.Backslashes | mux/claude_launch.go:446-452 | Any text with a backslash before each byte stands for that text |
| ShellQuoting.InFront | mux/claude_launch.go:427-467 | Quoted texts side by side stand for the text of both |
| ClaudeLaunch.NoInputBoxLoop | mux/claude_launch.go:186-199 | The flag loop answers exactly whether a print, version or help flag stands before a bare `--`, or the first argument is a subcommand |
| ClaudeLaunch.CommandWordLoop | mux/claude_launch.go:235-258 | The index of the word that is run, past assignments and the exec, command and env prefixes, as the recursive reading has it |
| ClaudeLaunch.ScanCommands | mux/claude_launch.go:91-139 | The loop with its callback counts the claude words of the whole line and, when there is one, gives it and its arguments |
| ClaudeLaunch.ClaudeLaunchOf | mux/claude_launch.go:91-139 | The launch analysis of a pane: unparsed, or the one claude word, its arguments and whether the launch is direct |
| ClaudeLaunch.CommandWordAppend | mux/claude_launch.go:235-258 | A word more behind a command word does not change which word it is |
| ClaudeLaunch.ClaudeWordsTurn | mux/claude_launch.go:209-226 | Token by token: a claude word counts once, at the word that is run, and an operator ends its command |
| LaunchLaws.BaseMeans | mux/claude_launch.go:91-98 | A path names the program it leads to: the name behind the last slash, slashes at the end apart |
| LaunchLaws.NoInputBoxMeans | mux/claude_launch.go:160-199 | No input box exactly when a print, version or help flag has no bare `--` in front of it, or the first argument is a subcommand |
| LaunchLaws.CommandWordIs | mux/claude_launch.go:228-258 | Behind assignments and the prefixes exec, command, nohup, and env with its assignments, the next word is the one that is run |
| LaunchLaws.CommandWordOf | mux/claude_launch.go:228-258 | And the word found to be run stands behind nothing else |
| LaunchLaws.ClaudeMeans | mux/claude_launch.go:201-226 | The claude words of a line are the positions where a simple command, from the operator in front of it on, runs a literal path that leads to claude |
| LaunchLaws.ArgWordsAre | mux/claude_launch.go:117-124 | The arguments are the words up to the next operator, in order |
| LaunchLaws.DirectMeans | mux/claude_launch.go:82-139 | A launch is direct if and only if it is a path to claude with arguments that show an input box, or a POSIX shell given one readable line that runs claude at one position and with such arguments; that position is the one recorded |
| LaunchLaws.RecordMeans | mux/claude_launch.go:91-139 | The line is recorded for whatever program is given one, with its tokens if it can be read; nothing is for an argument list |
| SettingsSplice.QuotedWord | mux/claude_launch.go:427-467 | A single-quoted value without a quote in it is read back as itself |
| SettingsSplice.FlagWordLex | mux/claude_launch.go:311-362 | `--settings='v'` before a blank, an end or an operator lexes to one literal word of exactly that text |
| SettingsSplice.LexInserted | mux/claude_launch.go:668-690 | With the flag inserted behind a word, the line lexes to the old tokens, the flag word, and the rest only shifted |
| SettingsSplice.LexReplaced | mux/claude_launch.go:714-727 | With a token range replaced by the flag, likewise |
| ClaudeSplice.ClaudeWordsSpliced | mux/claude_launch.go:91-139 | Exchanging non-operator tokens behind the only claude word for a flag word leaves it the only claude word |
| ClaudeSplice.ArgValsSpliced | mux/claude_launch.go:91-139 | And the arguments are the old ones with the replaced values exchanged for the flag |
| ClaudeSettings.LexedSpansOk | mux/claude_launch.go:311-362 | Token spans of a lexed line are in bounds and in order |
| ClaudeSettings.ShellSettings | mux/claude_launch.go:857-899 | The loop over the argument words finds exactly the --settings occurrences `Settings` defines on the token list, or unparsed |
| ClaudeSettings.SettingsAtNextWord | mux/claude_launch.go:857-899 | Redirections between arguments hide no occurrence |
| ArgvRewrite.ArgvSettingsLoop | mux/claude_launch.go:903-921 | The same for an argument list |
| SettingsLaws.SettingsMeans | mux/claude_launch.go:833-899 | The occurrences are all the words, up to a bare `--` or an operator, that are the flag with a plain value behind blanks, or the flag and an equals sign; the reading fails exactly when one of those words lacks its value or is an expansion that could spell the flag |
| SettingsLaws.ArgvSettingsMeans | mux/claude_launch.go:901-921 | The same for an argument list |
| SettingsRewrite.LastFlagIs | mux/claude_launch.go:692-700 | The last occurrence is a token or two of this very command, its span theirs, and nothing behind it is an occurrence |
| SettingsRewrite.RewriteLexes | mux/claude_launch.go:668-727 | Whatever branch the rewrite takes, the new line lexes, to the old tokens with one literal flag word inserted behind the claude word or in place of the last occurrence |
| SettingsRewrite.SettingsReplaced | mux/claude_launch.go:857-899 | Read back, the occurrences are the old ones with the last value replaced |
| RewriteTheorem.BoxKept | mux/claude_launch.go:186-199 | Exchanging values that are no help flag and no `--` for a flag word keeps the input box |
| RewriteTheorem.RewriteStaysDirect | mux/claude_launch.go:91-139 | The rewritten line is still a direct launch with the same claude word |
| RewriteTheorem.RewriteSettings | mux/claude_launch.go:668-727 | The last --settings of the rewritten line holds the new value, all earlier ones are untouched |
| RewriteTheorem.RewriteGives | mux/claude_launch.go:668-727 | What is written for the last value: the merged text, quoted so that a JSON reader gets the same from it, or the copy; refused exactly when merge or copy refuses |
| RewriteTheorem.RewriteKeepsCommand | mux/claude_launch.go:633-727 | Main theorem: a direct shell launch is rewritten exactly when its occurrences are read with certainty and the settings can be had; it is then, analysed again, the same direct launch with exactly that one argument changed, and the last --settings means what merging the old last one's own text gives (or the empty object, when there was none), or is the copy made for that very file |
| ArgvRewrite.RewriteArgvKeepsCommand | mux/claude_launch.go:668-727 | The same for an argument-list launch: rewritten exactly when the occurrences are read and the settings can be had; one element stands for the last occurrence, or in front, every other element is as it was, the box is kept, and the last value is the merged text of that occurrence, or the copy |
| JsonQuote.EscapeJsonMeans | mux/claude_settings.go:46-64 | The quoted text holds neither quote nor blank, and means the same JSON value, by an independent reader of string escapes, when blanks and quotes stand inside strings only |
| JsonQuote.EscapeMeansExactly | mux/claude_settings.go:46-64 | Of all texts whose strings are well formed, the quoted text means the same if and only if blanks and quotes stand inside strings alone |
| JsonQuote.HexEscapeReads | mux/claude_settings.go:46-64 | The reader takes a backslash, u and four hex digits for the character of that number |
| JsonQuote.StringReads | mux/claude_settings.go:46-64 | And the eight short escapes, and no others, for theirs |
| Lanes.SectionsKeepLane | hub/lane.go:211-303 | Push, next, idle-out and quiesce keep the byte count exact and the caps, and a retired or quiesced lane empty |
| Lanes.SectionsKeepOrder | hub/lane.go:211-256 | Items leave a lane in the order they entered it, and none are lost between |
| Lanes.Lane.PushItem | hub/lane.go:211-229 | The object does what the section says: accept at the back, refuse full, quiesced or retired, and owe a signal only when accepted |
| Lanes.Lane.TakeNext | hub/lane.go:242-260 | The oldest item, or wait, or stop |
| Lanes.Lane.RetireIfIdle | hub/lane.go:295-303 | A lane retires only when empty |
| Lanes.Lane.QuiesceLane | hub/lane.go:328-347 | Quiescing empties the lane and gives back all that was queued, once |
| LaneInvariant.StructKept | hub/lane.go:112-194 | Every step of every Deliver call, drainer and Quiesce keeps the structure: at most one lane that is not retired is in the Sub's map, only that one holds items, and its drainer will look again |
| LaneTheorem.HistKept | hub/lane.go:211-256 | Accepted items are, in order, those that left followed by those queued |
| LaneTheorem.ApartKept | hub/lane.go:263-303 | The item inside Run and those still to be told are different items |
| LaneTheorem.RepliesKept | hub/call.go:166-200 | The count of replies of each call is what the place of its item says |
| LaneTheorem.InvOverRuns | hub/lane.go:112-350 | All of this in every state of every run |
| LaneTheorem.ExactlyOneFate | hub/lane.go:112-137 | In every interleaving each accepted item is still queued on the one live, drained lane, or was started once, or discarded once; retired lanes are empty; order is that of acceptance |
| LaneProgress.DrainerCanStep | hub/lane.go:263-285 | While an accepted item is queued, the drainer of its lane has a step to make |
| LaneProgress.QueuedIsReached | hub/lane.go:242-303 | In every run, an item with k items ahead of it is started by exactly the drainer step number 2k + 1, or 2k + 2 when the drainer is not about to look, unless Quiesce sweeps; pushes, closing, other lanes and timeouts never put it back |
| LaneProgress.ReachedWithin | hub/lane.go:211-303 | Whatever has been accepted at any moment of any run has left its queue after 512 more steps of the drainer |
| LaneTheorem.OneRunAtATime | hub/lane.go:242-314 | No two items of one (Sub, pane) are ever inside Run at once, even across lane replacement |
| LaneTheorem.OneReply | hub/call.go:276-300 | No call is answered twice, and it has been answered exactly when its item ended or was refused |
| LaneTheorem.NothingStartsAfterSweep | hub/hub.go:300-340 | Once Quiesce has quiesced the lanes it saw, nothing is queued on any lane |
| LaneTheorem.NoStartAfterQuiesce | hub/hub.go:300-340 | From then on, in every continuation, no item starts and none is accepted |
| LaneTheorem.ClosedLaneRunsOut | hub/lane.go:196-260 | Once a lane is closed, in every continuation nothing more is accepted on it; it runs what it held, front first |
| LaneCalls.CallAlone | hub/lane.go:112-194 | From any state of any run, a Deliver call that nobody disturbs ends within eight steps: accepted, at the back of the live lane or of one of its own making, if and only if the Sub is up and that lane has room under both caps, or the hub is not closing; else refused and answered once |
| LaneCalls.SecondLane | hub/lane.go:166-187 | A call whose new lane comes second lets it go and takes the first; one whose Sub has gone is refused |
| LaneCalls.RetiredLane | hub/lane.go:112-137 | A retired lane is dropped and the call looks again, eight times at most |
| LaneCalls.WindsDown | hub/lane.go:305-314 | A drainer that is to stop takes its own lane out of the Sub and the hub, and changes nothing else |
| HubCalls.Hub.BeginCall | hub/hub.go:250-272 | A call is refused while closing, then for an unknown op, then for a caller that may only read, with nothing changed; else it is registered under an id never used before |
| HubCalls.Hub.BeginExec | hub/exec.go:24-38 | An execution context is registered in the same way, or not at all once closing is set |
| HubCalls.Hub.Leave | hub/hub.go:276-282 | The first half of a release takes exactly that registration away, and the counter stays |
| HubCalls.Hub.Done | hub/hub.go:276-282 | The second half counts down |
| HubCalls.Execution.ReleaseOnce | hub/exec.go:24-49 | The release of an execution context counts once however often it is called |
| HubCalls.WaitOnlyShrinks | hub/hub.go:300-340 | Over every run, the two halves of a release interleaved at will, the counter is the registrations and the releases half done; after closing what Quiesce waits for only shrinks |
| HubCalls.WaitEndsForGood | hub/hub.go:300-340 | The wait ends if and only if every registration is gone and every release is through, and the counter never comes back up |
| HubCalls.AdmitsUntilClosing | hub/hub.go:250-272 | A caller is let in exactly while the hub is not closing, under an id nobody has |
| HubCalls.IdsNeverRepeat | hub/hub.go:250-284 | Over every run, no id is handed out twice |
| FrameSlots.SortLines | hub/watch.go:127-155 | The lines of a frame are exactly the rows of the slot, each once, in row order |
| FrameSlots.MergingRefines | hub/watch.go:104-155 | For every interleaving of row offers and takes, the client that applied the taken messages and then the pending slot shows what applying every offer in order would show |
| FrameSlots.DrainedIsExact | hub/watch.go:310-325 | Right after a take the client is exactly up to date |
| FrameSlots.OverlayIsSame | hub/watch.go:168-203 | With the sticky key flag it makes no difference whether a keyframe replaces the screen or overlays it |
| FrameSlots.StickyKeyCovers | hub/watch.go:168-203 | A merged keyframe still covers every row |
| FrameSlots.RawOnRows | hub/watch.go:104-155 | A raw offer on top of pending rows loses them: the refinement survives if and only if those rows changed nothing |
| FrameSlots.PendingIsTaken | hub/watch.go:310-335 | If some slot is pending, the round-robin scan finds one |
| FrameSlots.ServedWithinOnePass | hub/watch.go:310-325 | A pending pane is served within one pass of takes, however fast the others are offered to |
| FrameStream.FramesShowOffers | hub/watch.go:104-203 | Over every run of the Sub, while the watch lasts, the frames of a pane that were written and then its pending slot show the screen that every offer that landed, in order, would have shown |
| FrameStream.FrameSaysOffers | hub/watch.go:104-203 | A frame that is written says exactly what the offers say that landed since the last one: the newest header, a key flag if any had one, of each row the newest text since the newest keyframe |
| FrameTurns.PaneGetsItsTurn | hub/watch.go:303-325 | In every run that keeps the watches, once as many frames have been written as there are turns to a pending pane, never more than there are watches, one of them is its |
| Subs.EnqueueKeeps | hub/sub.go:235-250 | A message accepted or refused, byte count and caps stay right |
| Subs.OfferKeeps | hub/watch.go:168-203 | An offer keeps the rotation and the slots in agreement |
| Subs.PaneClosedKeeps | hub/watch.go:293-301 | A closed pane has no slot left |
| Subs.ReplyKeeps | hub/watch.go:248-268 | Reply and activation in one section keep the Sub in order |
| Subs.TakeKeeps | hub/sub.go:335-375 | So does a take, which removes exactly what it hands out |
| Subs.IdleMeansNothing | hub/sub.go:335-375 | A take that idles means there was nothing to write |
| SubLaws.EnqueueMeans | hub/sub.go:235-250 | A message is queued exactly when the Sub is open and the queue has room for it under both caps, and overflows exactly when it is open and has none |
| SubLaws.ReplyMeans | hub/watch.go:248-268 | A reply is queued on the same terms; its slot is active afterwards on any |
| SubLaws.OfferMeans | hub/watch.go:168-203 | An offer lands exactly when the Sub is open and the pane watched and not closed on it; the frame waiting is then the whole message, or the rows over those that waited, the newest header and the key flag kept |
| SubLaws.AddSlotMeans | hub/watch.go:217-233 | A watch gets a slot exactly when the Sub is open and the pane has not closed on it; a new one is mute, empty and last in the rotation |
| SubLaws.DropSlotMeans | hub/watch.go:278-289 | A dropped slot goes and nothing else does; the others keep their order |
| SubLaws.FinalizeMeans | hub/sub.go:262-293 | Finalize counts once and not after a kill; it drops the backlog and the slots, and nothing else but the finals changes |
| SubLaws.TakeMeans | hub/sub.go:335-393 | What the writer is given, by what is there: in which order, when it is told to stop, and what a take leaves behind |
| SubObjects.Sub.EnqueueSection | hub/sub.go:235-250 | The object queues, refuses or overflows as the section says |
| SubObjects.Sub.FinalizeSection | hub/sub.go:262-293 | Finalize drops the backlog and the slots, once, and installs the finals |
| SubObjects.Sub.OfferSection | hub/watch.go:168-203 | An offer lands in an existing slot of an open Sub or nowhere |
| SubObjects.Sub.ReplyAndActivateSection | hub/watch.go:248-268 | The reply is queued in the section that activates the slot |
| SubObjects.Sub.PaneClosedSection | hub/watch.go:293-301 | The pane is barred and its slot dropped |
| SubObjects.Sub.DropSlotLocked | hub/watch.go:278-289 | The slot goes from the map and from the rotation |
| SubObjects.Sub.TakeSlotLocked | hub/watch.go:310-325 | The scan loop hands out the frame the specification scan finds, and moves the rotation there |
| SubObjects.Sub.HasSlotLocked | hub/watch.go:328-337 | True exactly when some slot is pending |
| SubObjects.Sub.TakeSection | hub/sub.go:335-375 | The order of what the writer is given: aggregate, then finals once finalized, else queue, then frames |
| SubStream.InvOverRuns | hub/sub.go:172-422 | Every state of every run of writer and producers satisfies the invariant |
| SubStream.StreamShape | hub/sub.go:335-422 | What a Sub hands its sink, in every run: the aggregate first, then accepted messages in order with frames between, then finals in order and nothing else behind them, nothing behind a torn write, and from finalize on only the aggregate and finals |
| SubStream.MarkStays | hub/sub.go:262-293 | Finalize happens once |
| SubStream.LateSessionHasNoMiddle | hub/hub.go:457-471 | A Session opened after Finalize writes the aggregate and finals and nothing else |
| SubStream.WriterIsWoken | hub/sub.go:398-407 | In every run, a parked writer with something to do has its wake token, or a producer still owes it one |
| SubStream.OwedKillSignals | hub/sub.go:298-333 | And a kill that is owed does lead to that signal |
| SubStream.FramesStayBehind | hub/sub.go:360-367 | A frame written after some moment stands behind every message accepted before it |
| SubStream.ReplyBeforeFrames | hub/watch.go:248-268 | When the Sub is open and has room for the reply, every frame written after replyAndActivate stands behind the reply, in every run |
| ReplyPlacement.OverflowedReplyIsOvertaken | hub/watch.go:248-268 | When the Sub is open but the reply overflows its queue, some run writes a frame of the announced pane with no reply, no step after the reply's own section activating its slot, and the kill comes too late |
| ReplyPlacement.ClosedReplyIsOvertaken | hub/watch.go:248-268 | When the Sub is closed already, likewise |
| ReplyPlacement.RepliedFirstExactly | hub/watch.go:248-268 | For a live writer and a slot that has, or can be offered, a frame: in every run every later frame of the pane stands behind the reply if and only if there is one, the Sub was open and had room for it; otherwise a run writes a frame of that pane, no step after the reply's own section activating its slot |
| ReplyPlacement.WatchIsAnsweredFirst | hub/watch.go:217-268 | From the creation of the slot on, over the watch being set up, answered and streamed, no frame of the pane is written that does not stand behind the accepted reply |
| SubStream.MutedUntilActivated | hub/watch.go:217-243 | Until a slot is activated no frame of its pane is written, whatever is offered |
| SubStream.NoFrameAfterPaneClosed | hub/watch.go:84-94 | After PaneClosed has reached a Sub no frame of that pane is written, in any run |
| SubSteps.SendStep | hub/sub.go:188-250 | A step that sends is the object's section; a message queued owes the signal, one that overflows owes the kill |
| SubSteps.EndSteps | hub/sub.go:203-333 | A close, the first time, owes the signal to a running writer and the kill where there is none; a kill, the first time, owes the signal |
| SubSteps.WatchSteps | hub/watch.go:168-301 | The steps that serve watches are the sections of the object, with what each owes |
| SubSteps.WriterSteps | hub/sub.go:335-422 | The writer takes when it is done writing, writes what it took, parks when there was nothing, and wakes for a token alone, which it uses up |
| SubSteps.NothingAfterKill | hub/sub.go:308-333 | A Sub that was killed writes and accepts nothing more, in any run |
| SubSteps.NothingAcceptedAfterClose | hub/sub.go:203-250 | One that was closed accepts nothing more |
| Boxes.FitsMeansUsable | mux/chrome.go:275-285 | The test before a split is passed exactly when both boxes of the reflow will be usable, and they and the border then are the box, cell for cell |
| Boxes.SplitMeans | mux/pane.go:668-696 | Whatever is left of the terminal, a split hands out no negative length; the first half has its part, rounded down, and the second what that and the border leave |
| LayoutTree.SplitAtNodes | mux/dynpanes.go:447-470 | Splitting any node keeps the tree well-formed: two nodes more, one leaf more |
| LayoutTree.SplitAtPointers | mux/dynpanes.go:447-470 | Every parent and child pointer after a split, node by node |
| LayoutTree.RemoveNodes | mux/dynpanes.go:477-503 | Removing a leaf keeps the tree well-formed, without the leaf and its parent |
| LayoutTree.RemovePointers | mux/dynpanes.go:477-503 | Every pointer after a removal, node by node: only the sibling's parent and one child pointer change |
| LayoutTree.RemoveKeepsOrder | mux/dynpanes.go:477-503 | The other panes keep their order on screen |
| LayoutTree.SplitStandsBeside | mux/dynpanes.go:447-470 | A new pane stands right beside the leaf it splits, on the side asked for |
| LayoutTree.CloseUndoesOpen | mux/dynpanes.go:447-503 | Opening a pane and closing it leaves the very same tree |
| LayoutTree.ShowUndoesHide | mux/chrome.go:296-366 | Splitting the sibling again as the removal found it gives back the same layout |
| Layout.Resize | mux/pane.go:618-665 | Reflow gives every node below the box its split gives it, and touches nothing but boxes |
| Layout.FirstLiveLeaf | mux/dynpanes.go:392-417 | The first session under a node in screen order, the first panel only if there is no session |
| Layout.Reaches | mux/chrome.go:147-162 | The walk answers exactly whether the node is in the tree |
| Layout.OneHolder | mux/dynpanes.go:447-503 | Exactly one pointer leads down to a node, from the node it points up to |
| Layout.Magmux.SplitNodeLocked | mux/dynpanes.go:447-470 | The pointer surgery turns the tree the pointers spell out into `SplitAt` of it, lays out the new pair in the old box, and leaves a layout that fills the screen one that does |
| Layout.Magmux.RemoveLeafLocked | mux/dynpanes.go:477-503 | The surgery turns it into the tree without the leaf; the sibling gets the parent's exact box; a detached pane is left alone; a layout that fills the screen still does |
| Layout.Magmux.IntactMeansLeaf | mux/dynpanes.go:318-320 | The check after the fork holds exactly of the leaves of the layout |
| Layout.Magmux.LargestLiveLeaf | mux/dynpanes.go:363-387 | The loop finds the largest session, and the largest panel only when there is no session |
| Layout.LargestMeans | mux/dynpanes.go:363-387 | The one found has the most cells of its kind, and is the first in the table that does |
| LayoutLaws.LargestIsBest | mux/dynpanes.go:351-387 | No pane that can be split is better than the one found, a session before a panel and a larger before a smaller, and it is the first of its kind and size |
| LayoutLaws.FocusMeans | mux/dynpanes.go:389-417 | Focus goes to the first session past any panels, to the first pane only where all are panels, to nothing only where there is none |
| LayoutLaws.SplitChoiceMeans | mux/dynpanes.go:75-85 | A pane is split as asked, or across its longer side, a column counting half; in the proportion asked for, or in the middle |
| LayoutLaws.TargetMeans | mux/dynpanes.go:322-349 | What a target stands for: the pane of that number if it is on the screen; for -1 the focused pane unless it is a panel; otherwise the largest |
| LayoutLaws.NothingLeftMeans | mux/dynpanes.go:233-262 | Nothing is left once every session is closed, or, where there never was one, every pane |
| LayoutLaws.BesideMeans | mux/chrome.go:332-356 | The panel comes back beside what it stood beside, if that is still in the layout, and else beside everything |
| Layout.Magmux.ResolveSplitTarget | mux/dynpanes.go:324-349 | The leaf with the id; for -1 the focused session; for other negative ones, or without such a session, the largest leaf; always a leaf of the layout or nothing |
| Layout.Magmux.PlanOpen | mux/dynpanes.go:59-112 | Refused as shutting down exactly when closing, for want of a place exactly when the target resolves to nothing, and as too small exactly when the split of that very target does not fit; else the plan names the target, the axis, a legal ratio and the box the new half gets if nothing changes before it is published |
| Layout.Magmux.Publish | mux/dynpanes.go:127-151 | Publishing after the fork: refused exactly when closing or when the target is no longer a leaf, with nothing changed; else the tree is split there, the id is the table's old length, the whole layout stays valid, and both halves are usable if and only if the target's box, as it then is, still takes the split |
| Layout.Magmux.OpenTwice | mux/dynpanes.go:117-151 | Two opens planned on one target: both are published, and the second pair is usable exactly when the first half of the first takes the split as well |
| Boxes.FitsOnceNotTwice | mux/dynpanes.go:89-134 | An 80 by 24 pane takes an even split, and its 40 column half does not take another: it becomes 20 and 19 |
| Layout.Magmux.ClosePane | mux/dynpanes.go:201-262 | The pane becomes a tombstone and leaves the tree, no id moves, focus stays if it can and else goes to the first session under the sibling; focus is nil only in an empty layout; quitting is asked for exactly when nothing is left |
| Layout.Magmux.LastOne | mux/dynpanes.go:233-262 | The counting loop answers whether nothing is left, or no session where there was one |
| Layout.Magmux.HidePanelLocked | mux/chrome.go:296-324 | The panel leaves the tree alive, its place remembered; focus it had goes to the first session on screen |
| Layout.Magmux.NodeInTreeLocked | mux/chrome.go:147-162 | Whether the remembered node is still in the layout |
| Layout.Magmux.ShowPanelLocked | mux/chrome.go:332-366 | The panel comes back beside the remembered node or the root, on its side, both halves usable; it is refused exactly when the split does not fit, with nothing changed |
| Layout.Magmux.TogglePanel | mux/chrome.go:369-401 | Any sequence of toggles keeps the layout valid, and filling the screen if it did |
| Layout.Magmux.HideThenShow | mux/chrome.go:296-366 | Hide then show: the panel comes back exactly when its old parent's box takes the split, and then to the same side of the same split at the same ratio; in a layout that fills the screen every pane has its old box again |
| Layout.Magmux.ReflowLocked | mux/chrome.go:116-121 | After a reflow every node has the box that laying out the whole in the screen gives it; open, close, hide and show keep that |
| LayoutBoxes.BoxInSplit | mux/dynpanes.go:447-470 | A split takes place in the box of the node it splits and moves no box outside it |
| LayoutBoxes.BoxInRemove | mux/dynpanes.go:477-503 | A removal takes place in the box of the parent, which the sibling gets, and moves no box outside it |
| LayoutBoxes.SameShapeBoxes | mux/chrome.go:296-366 | Layouts of one shape have their panes in the same boxes |
| Layout.Magmux.InstallHiddenPanel | mux/chrome.go:240-257 | The panel gets the last id and no place in the tree; the panel known is always one of the table |
| Layout.Magmux.StampPaneIDs | mux/grid.go:126-131 | Ids become indexes |
| Grid.ColumnFits | mux/grid.go:171-219 | A column of k panes is laid out if and only if there are 4k - 1 rows and 20 columns |
| Grid.ScreenFits | mux/grid.go:222-324 | n panes are laid out if and only if the taller column fits and there are 41 columns; one pane needs 3 by 20 |
| Grid.ColumnStarts | mux/grid.go:171-219 | Building a column starts all its panes if and only if there is room for the column, and none if and only if a split on the way to its first pane is too small |
| Grid.RefusedStarts | mux/grid.go:222-324 | A refused grid has started panes if and only if it has three or more, 41 columns, too few rows for the left column, and enough for the first pane of it to be reached |
| Grid.RefusedWithPanes | mux/grid.go:171-219 | Seven panes on 14 rows of 80 columns are refused when two of them run |
| Grid.ColumnTiles | mux/grid.go:171-219 | The panes of a column are in command order and each at least 3 by 20 |
| Grid.ScreenTiles | mux/grid.go:222-324 | The grid has one usable pane per command, in order, and panes and borders cover every cell of the screen exactly once |
| Grid.ColumnPlaces | mux/grid.go:186-207 | The first half of a column's panes, rounded up, has its share of the rows, rounded down; the others begin behind that and a border |
| Grid.ScreenPlaces | mux/grid.go:266-324 | The first half of the panes, rounded up, stands in the left half of the screen, rounded down, and the others behind the border |
| Grid.PanesDisjoint | mux/grid.go:222-324 | No cell is in two panes |
| GridBuild.BuildColumn | mux/grid.go:171-219 | The recursive builder makes panes and pointers that spell out exactly the planned column, or no layout; and it starts as many panes as `Grid.Started` says, also when it refuses |
| GridBuild.BuildGrid | mux/grid.go:222-324 | The built layout is valid when no panel is known yet: pointers, ids, leaves in command order, focus on the first; it fails, changing nothing, exactly when the plan does |
| GridBuild.LeavesAreCells | mux/grid.go:222-324 | The panes have the planned boxes in order |
| Frontier.NewEntriesFrom | mux/controller_claude_input.go:743-763 | The loop answers with the place of the baseline exactly when there is one and only one |
| Frontier.ReadTailAtTop | mux/controller_claude_input.go:717-738 | The row loop answers exactly whether the rows above the first prompt are the tail of the baseline's last entry |
| Frontier.TruePlace | mux/controller_claude_input.go:743-763 | The baseline's true end is a place whenever it is on the later screen |
| Frontier.FrontierSound | mux/controller_claude_input.go:640-682 | Soundness: on windows of an append-only list, every entry from the answer on was appended after the verify, whatever the tail evidence says |
| Frontier.FrontierExact | mux/controller_claude_input.go:743-763 | While the true end is on screen, the answer is yes if and only if nothing competes with it, and is then the exact frontier |
| Frontier.FrontierExactly | mux/controller_claude_input.go:743-763 | A yes is the exact frontier if and only if the true end is on screen or the answer came of what is above the screen: a tail at its top, or an empty baseline seen from the top. Any other yes starts behind entries that are new |
| Frontier.FrontierWhenUnique | mux/controller_claude_input.go:743-763 | In particular when the baseline's last entry occurs once |
| Frontier.ScrolledAwayMayOverlook | mux/controller_claude_input.go:743-763 | A screen of the other kind: the end has scrolled away and a look-alike takes its place |
| Frontier.NewHistoryEntry | mux/controller_claude_input.go:767-771 | Evidence exactly when some entry after the unique place carries the send's content |
| Frontier.AcceptVerdict | mux/controller_claude_input.go:837-856 | History before transcript before box, each exactly on its own evidence |
| Frontier.HistoryIsNew | mux/controller_claude_input.go:767-771 | A history verdict means that some prompt not there at the verify carries the send's content |
| Evidence.PlacedExactly | mux/controller_claude_input.go:740-763 | A place for the end of the baseline is where some story of the conversation has it, a list only appended to and seen through both screens; and there are no others |
| Evidence.AnswersMeans | mux/controller_claude_input.go:740-763 | The answer is yes if and only if all stories agree where the new entries start, and is that place |
| Evidence.TiedMatches | mux/controller_claude_input.go:773-811 | An entry matches if and only if it is of the send's kind and shows the verified or sent text, raw or rendered, whole or cut short after 48 runes or more, or the paste's number |
| Evidence.HistoryMeans | mux/controller_claude_input.go:765-811 | A history verdict is given if and only if some entry behind the one possible place is so tied to the send |
| Evidence.TranscriptMeans | mux/controller_claude_input.go:837-864 | A transcript mark counts exactly when it was read after the verify, was submitted in its millisecond or later, and is the sent or the verified text |
| Evidence.TailMeans | mux/controller_claude_input.go:712-738 | The tail is at the top exactly when the screen begins with rows that go on with an entry and are, row for row, the last of the baseline's last entry, but not all of it |
| Transcript.AttachToolResult | mux/controller_claude.go:919-935 | The backward double loop files a result with the newest call it answers |
| Transcript.AttachedMeans | mux/controller_claude.go:919-935 | A result goes to the newest call that takes it and changes nothing but that call; nowhere only when no call takes it |
| Transcript.AttachedInSuffix | mux/controller_claude.go:919-935 | Forgetting old turns does not change where a result goes, unless it went to one of those |
| Transcript.Parser.Trim | mux/controller_claude.go:806-818 | Dropping from the front stops at the first turn from which everything fits, or at one turn |
| Transcript.Parser.FileResult | mux/controller_claude.go:848-862 | A result changes and charges the same turn as in the unbounded parse, or a forgotten one |
| Transcript.Parser.FileReply | mux/controller_claude.go:864-898 | An assistant entry goes on the open turn or opens one, as in the unbounded parse |
| Transcript.ParseClaudeTurns | mux/controller_claude.go:790-908 | The streaming parse returns exactly the newest turns one would keep of the unbounded parse, tool results included |
| TranscriptTurns.ParseIsConversation | mux/controller_claude.go:840-905 | Results aside, the turns are a turn for each prompt and, between two prompts, one turn if there is any assistant entry: its text the trimmed texts of the stretch that are not blank, a blank line between any two, its calls the tool uses of the stretch in order, its time the first entry's |
| TranscriptTurns.TrimmedIs | mux/controller_claude.go:878-882 | Trimming takes the white space off both ends and nothing else |
| TranscriptAnswers.AnswerIsLast | mux/controller_claude.go:853-866 | A call made once has, in the end, the last result filed under its id since it was made, or none |
| TranscriptAnswers.FiledOn | mux/controller_claude.go:907-935 | A result goes to the newest call of its id, answered or not; without an id, to the newest call without a result |
| Transcript.KeptIsMost | mux/controller_claude.go:809-821 | No turn is forgotten that could have been kept within the bounds |
| Transcript.FirstKeptIs | mux/controller_claude.go:806-818 | What is kept is determined by the charged sizes alone: the largest suffix that fits, at least one turn |
| Transcript.ParseCovers | mux/controller_claude.go:790-908 | No turn holds more bytes than it is charged |
| TranscriptAccount.ChargedIsHeldAndReplaced | mux/controller_claude.go:797-831 | To the byte: what is charged is what is held and the results that others replaced |
| TranscriptAccount.ExactlyWhenAnsweredOnce | mux/controller_claude.go:848-862 | Every turn is charged the bytes it holds if and only if no result in the run was filed on a call that had one |
| TranscriptAccount.KeptByBytesHeld | mux/controller_claude.go:806-818 | The charges never keep a turn the bytes held would drop, and keep just those when no result was replaced |
| TranscriptAccount.ReplacedResultIsCharged | mux/controller_claude.go:848-862 | Two results for one call: the turn is charged both, and a prompt is dropped that fits the budget by the bytes held |
| Transcript.KeptWithinBounds | mux/controller_claude.go:784-818 | A caller gets some turn if there is any, at most maxTurns, and at most the budget in bytes unless it is one turn |
| RowEncoder.ColorRoundTrip | mux/frame.go:37-45 | A client reading the number gets the colour back |
| RowEncoder.ColorIntInjective | mux/frame.go:37-45 | Two colours have one number if and only if they mean the same |
| RowEncoder.RowStyle.Add | mux/frame.go:87-100 | Folding in one cell keeps the runs a correct, sorted, disjoint and maximal encoding of the columns so far |
| RowEncoder.RunsDecode | mux/frame.go:87-100 | The runs give back every column's style |
| RowEncoder.RunsUnique | mux/frame.go:87-100 | A row has one such encoding: the merge is canonical |
| RowEncoder.RowWalk | mux/capture.go:79-120 | The walk over any window writes the trimmed text, and records runs and wide indexes, or one dim flag for each rune left, which the byte arithmetic of the trim gets right |
| RowEncoder.WindowMeans | mux/capture.go:79-86 | A window is the columns from x0 to x1, both included, as far as the row has any |
| RowEncoder.TrimmedBytes | mux/capture.go:110-118 | Bytes trimmed are runes trimmed |
| RowEncoder.TextRoundTrip | mux/capture.go:79-120 | Text and wide indexes lay out to every column's character |
| RowEncoder.EncodeLine | mux/frame.go:107-118 | A line of a frame is an encoding of its row |
| RowEncoder.LineRoundTrip | mux/frame.go:107-118 | A line of a whole row decodes to it, characters and styles |
| RowEncoder.CutRightIsLong | mux/capture.go:79-120 | A window that ends in the left half of a character lays out one column too long |
| RowEncoder.WindowDecodesExactly | mux/capture.go:79-120 | Any window of a row decodes to its columns if and only if it cuts no character at either end |
| RowEncoder.LineDecodesExactly | mux/frame.go:107-118 | So a line of the first columns of a wider row gives back all its styles, and its characters if and only if the last of those columns is no left half |
| ControlLedger.ControlPanel.TouchRoute | mux/control.go:378-393 | A row for a touched pane, ascending and at most 32; no count changes |
| ControlLedger.ControlPanel.AppendSignal | mux/control.go:538-549 | Signals are numbered without a gap, and the newest 400 are kept |
| ControlLedger.ControlPanel.RecordStart | mux/control.go:562-631 | A start that names a pane begins from nothing; an identity changes no count, row or signal |
| ControlLedger.ControlPanel.RecordRouteClosed | mux/control.go:653-665 | A closed pane keeps its row and ledger |
| ControlLedger.ControlPanel.RecordRequest | mux/control.go:670-680 | A request adds a signal and at most a row |
| ControlLedger.ControlPanel.RecordAck | mux/control.go:690-706 | An ack marks the one signal it answers and changes no count |
| ControlLedger.ControlPanel.RecordSend | mux/control.go:727-768 | One more sent, over the run and on the pane, with an open step numbered by it |
| ControlLedger.ControlPanel.RecordObserved | mux/control.go:776-858 | One more observed, on the route and over the run alike, exactly when a touched pane settles with more sent than observed there |
| ControlLedger.ControlPanel.ObservedWithinSent | mux/control.go:776-858 | Nothing is observed that was not sent |
| ControlLedger.SeenKeepsRoute | mux/control.go:800-845 | Done steps never outnumber observed ones, nor those sent |
| ControlLedger.ClosesTheLastStep | mux/control.go:819-837 | An observation closes the last step if that is open and no other |
| LedgerLaws.SendMeans | mux/control.go:727-762 | A send makes the route busy and adds one open step with the next number, the text, and its name or else the number and how many there are; the newest 64 are kept |
| LedgerLaws.SeenMeans | mux/control.go:769-860 | A state seen, field by field and step by step: what the route then shows, when the turn counts, and which step, if any, is closed or names its tool |
| LedgerLaws.TouchMeans | mux/control.go:378-393 | Touching a pane gives it a new idle row unless it has one, is no pane, or 32 others have one; the other rows stay |
| LedgerSteps.SendStrandsIff | mux/control.go:736-753 | A send leaves an open step behind if and only if the last step is open at the send |
| LedgerSteps.SendStrands | mux/control.go:736-753 | And it is that step: which steps are open behind the last, after a send, step by step |
| LedgerSteps.SeenKeepsSteps | mux/control.go:800-845 | Seeing a state changes no step but the last |
| LedgerSteps.StrandedForGood | mux/control.go:800-845 | Over every sequence of sends and observations, a step once left open stays so, unchanged, for as long as it is among the steps kept |
| LedgerSteps.TwoSendsStrand | mux/control.go:736-753 | So two instructions with nothing observed between strand the first |
| ControlLedger.ControlPanel.SetFilter | mux/control.go:876-891 | A pane without a row is refused and the view left alone; what is stored is -1 or a pane with a row exactly when the number given is at least -1 |
| ControlLedger.ControlPanel.CycleFilter | mux/control.go:894-922 | The filter is then a row or all |
| ControlLedger.CycleUndone | mux/control.go:894-922 | Any step and the step back return to the same view |
| LedgerLaws.CycleMeans | mux/control.go:893-922 | A step of delta goes that many views on around the ring of the rows and all |
| InputKey.NormaliseKey | mux/claude_screen.go:208-228 | The one-pass loop gives the bounded key of the stripped text |
| InputKey.KeysEqualExactly | mux/claude_screen.go:175-228 | Two texts of any size have one key if and only if both are within the limit and agree apart from what is stripped, or both are over it and agree in what fits and in their count |
| InputKey.OverLimitNeverEqual | mux/claude_screen.go:84-87 | A text over the limit never has the key of one within it |
| KeyLaws.DropMeans | mux/claude_screen.go:175-203 | A raw key leaves out the white space of Unicode and nothing else, a rendered one also backquote, star and tilde |
| KeyLaws.BoundedIsMost | mux/claude_screen.go:205-228 | What is kept of a text over the limit is as much of it as 65536 bytes hold |
| KeyLaws.RuneLenIsLeast | mux/claude_screen.go:205-228 | A character counts as the fewest bytes of UTF-8 that reach it |
| KeyLaws.TrimRightIs | mux/claude_screen.go:284-296 | Trimming takes the blanks, or the newlines, off the end, all of them, and nothing else |
| KeyLaws.PromptRowMeans | mux/claude_screen.go:255-282 | A prompt row begins with the prompt's mark or the shell's, and a blank unless it ends there |
| InputKey.VisibleText | mux/claude_screen.go:285-297 | The runes of a row that are not faint, past the skip, right-trimmed |
| InputKey.JoinRows | mux/claude_screen.go:331-341 | First row, then each later one without its indent, trailing newlines gone |
| InputKey.WrapIndependent | mux/claude_screen.go:175-228 | However a text is cut into rows and at whatever blanks, the key of the joined rows is the key of the text |

## Left out

- Settings paths, HOME and relative-path resolution (settingsPath, homeKept, childHome) and all file I/O of the rewrite: one refusing function, `Copy`, stands for them.
- The gate basis of rewriteClaudeLaunch: the model is what it does once a pane is gated and direct.
- SettingsRewrite.RewriteLexes: a private copy's path is assumed to hold no single quote, which writeSettingsCopy checks before it names one.
- RewriteTheorem.RewriteKeepsCommand: likewise.
- Registering operations, watchers and their modes, retries of refused watches, and Publish to many subscribers: the systems have one subscriber.
- The count of calls in flight on a connection (takeCallSlot, freeCallSlot): a bounded counter.
- Lanes.Lane.PushItem: the sizes of items are given, not computed from their arguments.
- LaneTheorem.ExactlyOneFate: speaks of one (subscriber, pane); other keys share only the closing flag and the Sub's end with it. That a queued item is started is LaneProgress.QueuedIsReached.
- LaneCalls.CallAlone: for a call that nobody disturbs; LaneCalls.SecondLane and LaneCalls.RetiredLane are what others can do to it before its push.
- LaneProgress.QueuedIsReached: counts the drainer's steps. That a run ends and that the idle timer fires is up to the surroundings.
- LaneTheorem.OneReply: the reply of a Hub.Call that is not bound to a lane is one call of one function and not modelled.
- SubStream.ReplyBeforeFrames: for a reply that is accepted. ReplyPlacement.RepliedFirstExactly says what happens to the others.
- SubStream.WriterIsWoken: nil messages are excluded.
- FrameSlots.ServedWithinOnePass: while no slot is added or removed; FrameTurns.PaneGetsItsTurn likewise, over the runs of a Sub.
- FrameStream.FramesShowOffers: for a pane offered rows, while its watch lasts. FrameSlots.RawOnRows says what a whole message on top of rows does.
- Screen resizing, terminal parsing, the child processes and the pane goroutines: opening a pane stops at publishing it, closing one at the layout.
- Layout.Magmux.PlanOpen: geometry is exact for real ratios; that a float64 quotient recovers the height it came from is not claimed.
- GridBuild.BuildGrid: that a grid just built has the boxes a reflow would give it is not claimed, for it rests on that quotient.
- GridBuild.BuildGrid: a pane that fails to start is not modelled; nor are the grid-mode marks.
- buildLayout for plain runs of up to three commands, and the resize operation's dry run.
- Focus moved by mouse and keyboard, selection, and repainting after a reflow.
- Frontier.FrontierSound: that prompts are append-only, that a screen shows the last of them, and that topSeen is right are hypotheses, as the source argues for them.
- The welcome-banner expression, screen parsing, readiness and box verdicts: their results are inputs.
- The transcript marks' bookkeeping (notePrompt, noteQueued, dequeuedAt, dropQueued).
- TranscriptAnswers.AnswerIsLast: for an id that one call has, in a transcript whose results all name a call. TranscriptAnswers.FiledOn says where any one result goes.
- Transcript.ParseClaudeTurns: lines are decoded already, and a scanner error only ends the sequence.
- RowEncoder.WindowDecodesExactly: for windows of rows where a wide cell holds a character and its continuation follows, and there is no other continuation.
- JSON rendering of lines, frames and headers.
- ControlLedger.ControlPanel.RecordObserved: durations, the spark of turn times and repaint flags are left out, as are targetPane, notes and recordFinish.
- Painting of the panel and the status bar, the socket, HTTP and MCP adapters, authentication tickets and the client library.
