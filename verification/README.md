# ConsensFlow, modelled and proved

Dafny models of the protocols, readers and rewriters of ConsensFlow that carry state or meaning, each in a
module of its own, with the properties they are for proved over all inputs or all runs. `dafny verify
dfyconfig.toml` checks the whole.

- **Daemon** (`Daemon.dfy`): the app's hold on its daemon. A class with one method for each locked region, and
  a transition system in which the start thread, the bridge's close (its flag, then its callback), the app's
  stop and the page's waiting requests interleave.
- **Terminal link** (`TerminalOutput.dfy`, `TerminalInput.dfy`, `InputReloads.dfy`, `TerminalSize.dfy`):
  windowed output across page reloads, each page's subscription a task of its own that may run late; input cut
  in chunks and numbered, and the numbers across reloads; sizes kept in sync. The page's classes and the
  host's, and the steps between the page's awaits.
- **Updates** (`Versions.dfy`, `Updates.dfy`): version precedence, and the manager whose checks, downloads and
  installs finish later.
- **Markdown** (`MarkdownInline.dfy`, `EmphasisMemo.dfy`, `MarkdownBlocks.dfy`, with `Characters.dfy` and
  `TableCells.dfy`): the page's readers of lines and of blocks. Each pattern is a scan of characters; the
  readers are functions, and the page's own loops are methods proved equal to them. What each construct reads
  as is proved against a writer of its own: links (`LinkReadBack.dfy`), code and emphasis (`MarksReadBack.dfy`),
  the patterns of lines (`LinePatterns.dfy`), blocks (`BlocksReadBack.dfy`), lists (`ListsReadBack.dfy`) and
  tables (`TablesReadBack.dfy`), with `Parts.dfy` for what stands where in a line.
- **Goldens** (`GoldenPaths.dfy`, `GoldenTexts.dfy`, `GoldenMove.dfy`): the rewriting of a log of changes by
  replaying it, moving the files and saying the changes again.
- **Reloads**, **login shells**, **marked output**, **staff table**, **page patching**, **card placement** and
  **shell words** (`Reloads.dfy`, `LoginShells.dfy`, `MarkedOutput.dfy`, `TableRows.dfy`, `DomPatch.dfy`,
  `Placement.dfy`, `ShellWords.dfy`).
- `Prelude.dfy` holds what several of them share.

A class stands where the source updates an object in place. Its methods are proved against functions on the state's
value, and the transition systems take their steps by those same functions, so what is proved of every run is
proved of what the methods do. Typed input is the exception: its methods have contracts of their own, and its
system shares with them the test of what goes at once and the host's verdict on a number. In the systems any party
may take its next step at any time, and time is a number.

Where code and comment disagree the models follow the code, show a case and say when it arises:

- A pane whose page is gone is let off what it owes once the new page listens, as everything sent before went to
  the old one (app/src-tauri/src/commands.rs:324-328). That holds while pages' tasks run in the order of the
  pages. `TerminalOutput.LateRegistrationStrandsAPane` is a run in which the old page's task registers last and
  the pane is held for good; `TerminalOutput.HeldForGoodExactlyWhen` says from which states that can come.
- A size is sent until the pane accepts it (app/ui/terminal-link.js:88). `TerminalSize.RefusedIsNotSentAgain` is a
  run in which it is not; `TerminalSize.SettledSizeIsTheLastAsked` says when the size asked is the host's.
- A new page counts every pane's input from 1 (crates/cf-panes/src/input_queue.rs:227-229).
  `InputReloads.OldChunkTakesThePlace` and `InputReloads.LateBeginForgetsTheCount` are runs in which its chunks
  are turned away all the same; `InputReloads.TurnedAwayExactlyWhen` says from which states that can come.
- The memo of unclosed emphasis can change what a line reads as (`MarkdownInline.EmphasisMemoIsNotExact`);
  `EmphasisMemo.PageReadsSimpleLinesExactly` names lines on which it does not.

## Model

| member | source | states |
|---|---|---|
| DaemonLifecycle.Daemon.BeginAttempt | app/src-tauri/src/daemon.rs:242-247 | the first locked half of a start: a number no other start has |
| DaemonLifecycle.Daemon.TakeIn | app/src-tauri/src/daemon.rs:255-273 | the second locked half: the daemon in hand and told up, told down at once where its bridge had closed meanwhile, left to its starter where the app stops |
| DaemonLifecycle.Daemon.OnClosed | app/src-tauri/src/daemon.rs:281-288 | a close tells the stop of the daemon in hand while it is up and the app runs, and nothing else |
| DaemonLifecycle.Daemon.Tell | app/src-tauri/src/daemon.rs:291-297 | a change is told unless the app stops |
| DaemonLifecycle.Daemon.TellAgain | app/src-tauri/src/daemon.rs:312-317 | the status in force heard again, nothing before the first outcome |
| DaemonLifecycle.Daemon.Connection | app/src-tauri/src/daemon.rs:323-332 | the bridge while the daemon is up, else the cause |
| DaemonLifecycle.Daemon.Stop | app/src-tauri/src/daemon.rs:354-363 | the first stop alone is handed the daemon and its bridge |
| DaemonLifecycle.RunKeepsInv | app/src-tauri/src/daemon.rs:176-363 | every interleaving of the start thread, bridge closes (flag, then callback), stops and requests keeps the five invariants |
| DaemonLifecycle.DeathIsToldOnce | app/src-tauri/src/daemon.rs:242-306 | once the daemon in hand has closed and its callback has run, the status is down with the stopped cause and that was told exactly once, last, whether the close came before, during or after it was taken in |
| DaemonLifecycle.UpUntilItsCloseIsTold | app/src-tauri/src/daemon.rs:242-288 | while the app runs the status is up exactly where a daemon was taken in with its bridge open and its close has not been told |
| DaemonLifecycle.FailureIsTold | app/src-tauri/src/daemon.rs:211-220 | a failed start is told down with its own cause and whether it is tried again, and is tried again exactly where it said so |
| DaemonLifecycle.RetriedOrGivenUp | app/src-tauri/src/daemon.rs:211-238 | after the wait, with every pane closed the next start begins, its number one more; with a pane open it is given up on, told with the same cause and no retry |
| DaemonLifecycle.OtherClosesChangeNothing | app/src-tauri/src/daemon.rs:281-288 | a close of any start but the one in hand changes nothing |
| DaemonLifecycle.UpMeansNoStopTold | app/src-tauri/src/daemon.rs:242-288 | while the status is up, the callback of the daemon in hand has not run, and its child and bridge are held |
| DaemonLifecycle.EveryChildIsInOnePlace | app/src-tauri/src/daemon.rs:242-273 | every child ever started is held, on its way, handed to the one stop, or stopped by its attempt: exactly one of these; at the end none is left held |
| DaemonLifecycle.StopFreezesStatus | app/src-tauri/src/daemon.rs:281-306 | after a stop the status, what was told and what was handed never change |
| DaemonLifecycle.EndedThreadLeavesNoneWaiting | app/src-tauri/src/daemon.rs:211-238 | once the start thread has ended without a stop, no retry is promised and every waiting request is answered as it looks |
| DaemonLifecycle.NoLostWakeUp | app/src-tauri/src/daemon.rs:301-332 | a request that sleeps does so only while there is no outcome to give |
| DaemonLifecycle.AnswersNameTheDaemonInHand | app/src-tauri/src/daemon.rs:323-332 | every bridge a request was given is that of the one daemon ever in hand |
| DaemonLifecycle.RequestsAreAnsweredByTheStatus | app/src-tauri/src/daemon.rs:323-332 | in every run a request is answered exactly where there is an outcome or the app stops; with the bridge in hand exactly where the status is up, else with the cause last told, or that nothing was started |
| DaemonLifecycle.LastHeardIsCurrent | app/src-tauri/src/daemon.rs:301-317 | the last status the page heard is the one in force |
| DaemonLifecycle.GivingUpIsNotStale | app/src-tauri/src/daemon.rs:223-236 | the status read before the panes were listed is still in force when it is told without its retry |
| DaemonLifecycle.WaitsDouble | app/src-tauri/src/daemon.rs:211-222 | the waits between starts double from the first to the most |
| TerminalOutput.OutputFlow.ReadAllowance | crates/cf-panes/src/pty.rs:352-361 | what the host may still read: the free part of the window, or to wait |
| TerminalOutput.OutputFlow.Record | crates/cf-panes/src/pty.rs:363-373 | a message owed under the next number |
| TerminalOutput.OutputFlow.Acknowledge | crates/cf-panes/src/pty.rs:375-391 | the loop that drops what is acknowledged: a number never issued is refused |
| TerminalOutput.OutputFlow.AcknowledgeAll | crates/cf-panes/src/pty.rs:393-400 | nothing is owed any more |
| TerminalOutput.LaterIsExactlyWhatIsPast | crates/cf-panes/src/pty.rs:375-391 | of what is owed exactly the messages past the number stay owed |
| TerminalOutput.TerminalLink.Output | app/ui/terminal-link.js:38-50 | a retired pane is read and drawn nowhere, any other is written to its emulator |
| TerminalOutput.TerminalLink.Drawn | app/ui/terminal-link.js:56-61 | the last drawn, asked for at once where no acknowledgement is on its way |
| TerminalOutput.TerminalLink.Acknowledge | app/ui/terminal-link.js:63-76 | one turn of the loop: the last drawn, until it is sent |
| TerminalOutput.TerminalLink.Answered | app/ui/terminal-link.js:63-76 | the rest of a turn once the host answered |
| TerminalOutput.HeldPaneIsFreed | app/ui/terminal-link.js:38-76 | in every reachable state in which the host holds a pane at its window, a step that leads to its release can be taken, across page reloads too, unless a page that has gone was registered after the one there now |
| TerminalOutput.ProgressEndsFree | app/ui/terminal-link.js:38-76 | such steps end, however ordered, in no more than a measure of the state, and end with the whole window free, unless a page that has gone was registered last |
| TerminalOutput.QuietOwesNothing | app/src-tauri/src/commands.rs:311-330 | with nothing on its way, nothing is owed, unless a page that has gone was registered last |
| TerminalOutput.HeldForGoodExactlyWhen | app/src-tauri/src/commands.rs:311-330 | while a page stays, its pane can come to be held for good exactly where a page before it was registered after it, or its task still has to register it |
| TerminalOutput.LateRegistrationStrandsAPane | app/src-tauri/src/commands.rs:311-330 | the tasks of two pages overlap and the older one registers last: a run ends with the pane held for good, against the comment that all sent before went to the old page |
| TerminalOutput.WindowIsNeverOverrun | crates/cf-panes/src/pty.rs:352-391 | what is owed never passes the window, and no acknowledgement the page asks is refused |
| TerminalOutput.OutputIsWhole | crates/cf-panes/src/output_hub.rs:66-92 | a page is handed the messages with none lost, repeated or out of order from its first, and up to the last numbered unless a page that has gone was registered last |
| TerminalOutput.FirstPageIsHandedAll | crates/cf-panes/src/output_hub.rs:66-92 | the first page registered is handed the output from its first message, what was printed before it was there too, and all of it while no other page is registered |
| TerminalOutput.AcksAreConserved | app/ui/terminal-link.js:63-76 | an acknowledgement asked stays on its way until the host takes it, though its page goes; none is made up |
| TerminalOutput.FreedExactly | crates/cf-panes/src/pty.rs:375-391 | whatever step is taken, what is owed goes exactly where the host takes an acknowledgement of it or of a later message, or a page takes over |
| TerminalOutput.AsksUpToTheLastDrawn | app/ui/terminal-link.js:52-76 | what is newly acknowledged is up to the last message drawn, past all acknowledged before |
| TerminalOutput.NothingUndrawnIsAcknowledged | app/ui/terminal-link.js:38-76 | what is still to be drawn of a live pane is never acknowledged by the page |
| TerminalOutput.AckAllFirstWouldStrandAPane | app/src-tauri/src/commands.rs:311-330 | with everything acknowledged before the new page is registered, a run ends with the pane held for good, though no older page was registered late: the order of the steps is needed |
| TerminalInput.ChunksAreWhole | app/ui/terminal-link.js:133-139 | chunks put together are what was typed, none empty or too big |
| TerminalInput.InputQueue.EnqueuePage | crates/cf-panes/src/input_queue.rs:179-228 | the very next number is counted, a gap or a regression is not |
| TerminalInput.InputQueue.BeginPage | crates/cf-panes/src/input_queue.rs:230-234 | every pane counts from 1 again |
| TerminalInput.InputStreams.Stream | app/ui/terminal-link.js:129-149 | a keystroke goes at once, a paste and what comes behind it is chained |
| TerminalInput.InputStreams.NextSequence | app/ui/terminal-link.js:151-154 | the next number of the pane |
| TerminalInput.AdmittedIsAPrefixOfEachCall | app/ui/terminal-link.js:129-176 | what the host admitted is, in the order of the calls, a prefix of each made of whole chunks, all of one that ended uncut |
| TerminalInput.NumbersHaveNoGapOrRepeat | app/ui/terminal-link.js:151-176 | the chunks that reach the host are numbered one after the other from the page start, so none is turned away for its number |
| TerminalInput.TypedGoesAtOnceExactlyWhen | app/ui/terminal-link.js:129-149 | what is typed is sent at once, whole and under the next number, exactly where nothing earlier waits and it is one chunk; else it is chained last |
| TerminalInput.CallGoesOnExactlyWhen | app/ui/terminal-link.js:133-176 | a call sends its next chunk exactly where the last was admitted and waited for, one is left and the pane is there; else it is over, cut short where it was refused or some is left |
| TerminalInput.NoCallIsStuck | app/ui/terminal-link.js:129-176 | in every run, while a call of a pane that is there is not over, a step of some call can be taken |
| TerminalInput.IdlePaneLetsGo | app/ui/terminal-link.js:144-148 | once every call is over the stream is let go of or can be, so that what is typed next goes at once |
| TerminalInput.RetiredIsSentNothing | app/ui/terminal-link.js:99-106 | a retired pane is sent nothing more |
| InputReloads.CountedExactlyInStep | crates/cf-panes/src/input_queue.rs:186-202 | a page's next chunk is a gap or a regression exactly where the host's count is not of what arrived of that page's |
| InputReloads.StaysInStepExactlyWhen | crates/cf-panes/src/input_queue.rs:186-234 | while a page stays, the count is lost exactly at a chunk of an older page that is counted, or a begin once something was |
| InputReloads.TurnedAwayExactlyWhen | app/src-tauri/src/commands.rs:311-330 | a page in step with the host can come to have a chunk turned away for its number exactly where the host is still to begin for it or an older page, or an older page's chunk is to come under a number not yet counted |
| InputReloads.CleanStartIsNeverTurnedAway | app/ui/terminal-link.js:151-176 | with nothing left of older pages, no chunk of a page is ever turned away for its number, whatever is sent and arrives |
| InputReloads.OldChunkTakesThePlace | crates/cf-panes/src/input_queue.rs:227-234 | a reachable state in which a chunk sent before the reload was counted for the new page, whose own first is turned away |
| InputReloads.LateBeginForgetsTheCount | app/src-tauri/src/commands.rs:311-330 | a reachable state in which an old page's late begin cleared the count, and the page's next chunk is a gap |
| TerminalInput.AdmittedOnlyGrows | crates/cf-panes/src/input_queue.rs:179-228 | what was admitted stays, in order |
| TerminalSize.PaneSize.Resize | app/ui/terminal-link.js:89-97 | the size last asked, sent where no call is on its way |
| TerminalSize.PaneSize.Settle | app/ui/terminal-link.js:119-127 | the rest of a sync: synced again where another size was asked meanwhile |
| TerminalSize.SettledSizeIsTheLastAsked | app/ui/terminal-link.js:89-127 | with no call on its way the host is at the size last asked exactly where the last thing it did was not to refuse that very size |
| TerminalSize.OneCallAtATime | app/ui/terminal-link.js:113-127 | sizes asked while a call is on its way send nothing, and the next call is for the last of them |
| TerminalSize.RefusedIsNotSentAgain | app/ui/terminal-link.js:88-127 | the comment says a size is sent until the pane accepts it; a refused size is not sent again until another is asked: a counterexample |
| TerminalSize.RetiredIsSentNoSize | app/ui/terminal-link.js:99-106 | a retired pane is sent no size again |
| Versions.PrecedenceIsAnOrder | app/src-tauri/src/updates.rs:718-768 | version precedence (section 11 of Semantic Versioning 2.0.0) is a total order on versions of one precedence, transitive and without cycles |
| Versions.NumbersDecide | app/src-tauri/src/updates.rs:718-728 | clause 2 of section 11 of Semantic Versioning 2.0.0: major, minor and patch compare in this order, as numbers |
| Versions.PreReleaseComesBefore | app/src-tauri/src/updates.rs:718-728 | clause 3: a pre-release comes before its release |
| Versions.FirstDifferenceDecides | app/src-tauri/src/updates.rs:718-728 | clause 4: of two pre-releases of the same numbers the first identifiers that differ decide |
| Versions.NumbersAreComparedAsNumbers | app/src-tauri/src/updates.rs:718-728 | clause 4.1: with a common prefix and numbers m and n next, the lower number comes first, whatever follows |
| Versions.TextsAreComparedByCharacters | app/src-tauri/src/updates.rs:718-728 | clause 4.2: texts compare by their first characters that differ, and a text comes before one that goes on from it |
| Versions.NumbersComeBeforeTexts | app/src-tauri/src/updates.rs:718-728 | clause 4.3: a number comes before a text |
| Versions.LongerComesLater | app/src-tauri/src/updates.rs:718-728 | clause 4.4: of two alike as far as they go the longer comes later |
| Versions.BuildsDecideNothing | app/src-tauri/src/updates.rs:726-729 | a release passes exactly where it comes later than the app, has no build, and is a full release or, on the alpha channel, one of the alpha line; build metadata decides nothing |
| Versions.AlphasRiseByNumber | app/src-tauri/src/updates.rs:726-729 | an app at one alpha takes another of the same numbers exactly where its number is greater, and on the stable channel takes none |
| Versions.UpgradesOnlyRise | app/src-tauri/src/updates.rs:718-768 | a chain of upgrades on any channels never goes back or round |
| Updates.UpdateManager.SetChannel | app/src-tauri/src/updates.rs:552-583 | refused while busy; what was found or downloaded is dropped with the channel |
| Updates.UpdateManager.BeginCheck | app/src-tauri/src/updates.rs:585-600 | a check begins unless something is under way |
| Updates.UpdateManager.OnFound | app/src-tauri/src/updates.rs:603-616 | what a check found |
| Updates.UpdateManager.BeginInstall | app/src-tauri/src/updates.rs:625-655 | bytes and the version they are of handed over, only from ready and with the permit |
| Updates.UpdateManager.UndoInstall | app/src-tauri/src/updates.rs:625-655 | a failed install has its bytes back |
| Updates.InstallsWhatWasDownloadedForIt | app/src-tauri/src/updates.rs:552-729 | in every run the bytes handed to an install were downloaded for the version handed with them, which is newer than the one running and accepted by the channel in force |
| Updates.AnUpgradeCanBeInstalled | app/src-tauri/src/updates.rs:585-655 | whatever upgrade the channel accepts, a run finds it, downloads it and hands an install just what was downloaded; undone, it is ready again with the same archive |
| Updates.AFailureCanBeTriedAgain | app/src-tauri/src/updates.rs:585-708 | after a failed check, download or join a check can begin, and a failed download of the same release |
| Updates.ReadyIsLeftOnlyFor | app/src-tauri/src/updates.rs:585-655 | what was downloaded is kept until it is installed or another channel is set |
| Updates.BytesExactlyWhenReady | app/src-tauri/src/updates.rs:552-708 | bytes are held exactly in the ready phase, for the release shown |
| Updates.AtMostOneUnderWay | app/src-tauri/src/updates.rs:552-708 | at most one check, download or install is under way, the one the phase says |
| Updates.ChecksAreOfTheChannelInForce | app/src-tauri/src/updates.rs:108-196 | what a check found is taken in under the channel it was asked of |
| Updates.StrayFailureKeepsExactlyWhen | app/src-tauri/src/updates.rs:335-343 | a failure told by a worker that never entered the install keeps the invariants exactly where nothing is under way and no bytes are held; runs with such failures keep all the above |
| Updates.StrayFailureBreaksIt | app/src-tauri/src/updates.rs:335-343 | told while something is under way, such a failure breaks these: a counterexample |
| MarkdownInline.CodeMemoIsExact | app/ui/core/markdown.js:396-402 | with any memo a line can be read with, the search for what closes a run of backticks finds what one with no memo does |
| MarkdownInline.MemoChangesNoReading | app/ui/core/markdown.js:364-467 | every line reads the same with the memo of code and without it |
| MarkdownInline.ScanAgrees | app/ui/core/markdown.js:434-446 | so does the search for what closes emphasis, which passes over code |
| MarkdownInline.EmphasisMemoIsNotExact | app/ui/core/markdown.js:364-446 | the memo of emphasis is not exact: `**a ****b` reads otherwise with it |
| EmphasisMemo.PageReadsSimpleLinesExactly | app/ui/core/markdown.js:364-460 | on every line with no link or image, brackets or none, and no three of a mark in a row, the page reads just what it would with no memo at all |
| EmphasisMemo.NothingFromThere | app/ui/core/markdown.js:434-446 | a search that found nothing finds nothing from any place it came by |
| MarkdownInline.SpansKeepWords | app/ui/core/markdown.js:356-427 | the words of a line's spans are a subsequence of the line |
| MarkdownInline.EscapedReadsAsItself | app/ui/core/markdown.js:386-393 | a text with every ASCII punctuation character escaped reads back as itself (section 2.4 of CommonMark 0.31.2) |
| MarkdownInline.SpansOf | app/ui/core/markdown.js:364-383 | the page's loop over a line with its memo updated in place, equal to the reading above |
| MarkdownInline.Closer | app/ui/core/markdown.js:434-446 | the page's search loop, equal to the functions above |
| LinkReadBack.LinkIsRead | app/ui/core/markdown.js:30-35 | wherever it stands in a line, a link or image written with words, an address with parentheses in pairs and a title or none is read with its own address |
| LinkReadBack.LinkIsWritten | app/ui/core/markdown.js:30-35 | and only what is written so is read as a link |
| LinkReadBack.LinkReadsBack | app/ui/core/markdown.js:404-411 | between texts with no mark in them a line reads as the text, the link of its words to its own address, and the text |
| LinkReadBack.PlainLinkReadsBack | app/ui/core/markdown.js:404-411 | words with no mark and an address with no space or parenthesis read as a link of those words to that address, after a ! too |
| LinkReadBack.QuietReadsAsItself | app/ui/core/markdown.js:364-383 | a text with no mark in it is one span of text |
| LinkReadBack.BracketsStayText | app/ui/core/markdown.js:385-411 | brackets that are no link are text |
| MarksReadBack.CodeReadsBack | app/ui/core/markdown.js:395-402 | a text between n backticks, with no run of exactly n in it, reads as code of just that text |
| MarksReadBack.TicksFound | app/ui/core/markdown.js:434-454 | the search for what closes backticks finds the first run of exactly as many |
| MarksReadBack.EmphasisReadsBack | app/ui/core/markdown.js:413-427 | a text between one mark and one, or two and two, reads as italic or bold of that text, code, escapes and other marks in it passed over; an underscore not inside a word |
| MarksReadBack.PlainEmphasisReadsBack | app/ui/core/markdown.js:413-427 | a text with no mark in it reads as italic between one * or _, and as bold between two |
| MarksReadBack.ThreeMarksReadBack | app/ui/core/markdown.js:413-460 | between three and three it reads as bold with italic in it |
| MarksReadBack.MarksStayText | app/ui/core/markdown.js:418-460 | marks that may not open or may not close, by what stands around them, stay text |
| MarksReadBack.UnclosedTicksStayText | app/ui/core/markdown.js:396-402 | backticks that nothing closes are text |
| MarksReadBack.BackslashStaysText | app/ui/core/markdown.js:388 | a backslash is text but before ASCII punctuation |
| Characters.PunctuationIs | app/ui/core/markdown.js:28-29 | the escapable characters are those of ASCII that show and are no letter or digit |
| MarkdownBlocks.EveryLineIsInOneBlock | app/ui/core/markdown.js:108-128 | the blocks take stretches of lines one after the other, and every line that is not blank is in exactly one |
| MarkdownBlocks.NestingIsBounded | app/ui/core/markdown.js:101-128 | quotes and lists never nest deeper than the bound, whatever the lines |
| MarkdownBlocks.BlocksStandAlone | app/ui/core/markdown.js:108-231 | every block's own lines read by themselves at the same depth are that one block |
| MarkdownBlocks.ParagraphReadsBack | app/ui/core/markdown.js:220-231 | a paragraph's own lines read again at the same depth are that same single paragraph |
| MarkdownBlocks.BlocksIn | app/ui/core/markdown.js:108-128 | the page's loop over blocks, equal to the reading above |
| MarkdownBlocks.ReadAt | app/ui/core/markdown.js:115-123 | the kinds tried in turn read the block at a line |
| MarkdownBlocks.FencedAt | app/ui/core/markdown.js:135-142 | fenced code runs to the line that closes it, or to the end, its language in lower case |
| MarkdownBlocks.QuoteAt | app/ui/core/markdown.js:164-168 | a quote's lines without their marks, one level deeper |
| MarkdownBlocks.ItemsAt | app/ui/core/markdown.js:178-202 | the items of a list, each with the lines indented past its mark |
| MarkdownBlocks.LinesUnder | app/ui/core/markdown.js:190-196 | the lines under an item and where they end |
| MarkdownBlocks.TableAt | app/ui/core/markdown.js:205-217 | a table: a row, a rule under each of its cells, then every row with a pipe |
| MarkdownBlocks.ParagraphAt | app/ui/core/markdown.js:220-226 | a paragraph up to a blank line or another block |
| LinePatterns.QuoteIsRead | app/ui/core/markdown.js:20-21 | a line of spaces, >, a space or none and words is a quote of just those words |
| LinePatterns.QuoteIsWritten | app/ui/core/markdown.js:20-21 | and every quote is such a line |
| LinePatterns.HeadingIsRead | app/ui/core/markdown.js:14-15 | one to six #, a space and words are a heading of that level with those words, trimmed |
| LinePatterns.HeadingIsWritten | app/ui/core/markdown.js:14-15 | and every heading is such a line |
| LinePatterns.FenceIsRead | app/ui/core/markdown.js:12-13 | three or more of one mark and a word open code, read with its marks and its word |
| LinePatterns.FenceIsWritten | app/ui/core/markdown.js:12-13 | and every fence is such a line |
| LinePatterns.FenceIsClosedBy | app/ui/core/markdown.js:144-148 | as many marks or more close a fence, spaces around them or none |
| LinePatterns.FenceIsClosedOnlyBy | app/ui/core/markdown.js:144-148 | and nothing else does |
| LinePatterns.RulePattern | app/ui/core/markdown.js:16-17 | a rule is exactly a line with three or more of one of its marks and nothing else but spaces |
| LinePatterns.ItemIsRead | app/ui/core/markdown.js:22-23 | an indent, a mark, a space and words are an item read with those |
| LinePatterns.ItemIsWritten | app/ui/core/markdown.js:22-23 | and every item is such a line |
| LinePatterns.OrderedMeans | app/ui/core/markdown.js:178-180 | an item is of an ordered list exactly where its mark is a number and its point |
| LinePatterns.NumberReadsBack | app/ui/core/markdown.js:201 | a number written in digits, zeros before them or none, is read back |
| LinePatterns.StartReadsBack | app/ui/core/markdown.js:201 | a list starts at the number written, or at none |
| LinePatterns.TaskIsRead | app/ui/core/markdown.js:18-19 | a box, spaces and words are a task with those words, done exactly where the box is ticked |
| LinePatterns.TaskIsWritten | app/ui/core/markdown.js:18-19 | and every task is such words |
| LinePatterns.RuleCellPattern | app/ui/core/markdown.js:24-25 | a rule under a cell is exactly dashes, a colon at either end or none |
| BlocksReadBack.RestReadsTheSame | app/ui/core/markdown.js:108-128 | what a line starts is the same whatever lines come before it |
| BlocksReadBack.HeadingReadsBack | app/ui/core/markdown.js:150-156 | a heading written reads as that heading, then what is after it |
| BlocksReadBack.RuleReadsBack | app/ui/core/markdown.js:158-161 | a rule written reads as a rule, before any list |
| BlocksReadBack.FencedReadsBack | app/ui/core/markdown.js:130-142 | fenced lines that do not close the fence read as just those lines, with the language in lower case, closed or to the end |
| BlocksReadBack.LanguageIsLowered | app/ui/core/markdown.js:141 | lower case: the capitals of ASCII, and nothing else |
| BlocksReadBack.QuoteReadsBack | app/ui/core/markdown.js:163-168 | any lines with > before each read as a quote of the blocks those lines are, one level deeper |
| BlocksReadBack.PlainLinesAreAParagraph | app/ui/core/markdown.js:219-226 | lines that start nothing are one paragraph of just those lines, up to a blank line or one that starts something |
| BlocksReadBack.BlockLineMeans | app/ui/core/markdown.js:228-231 | a line starts something exactly where it is written as a fence, heading, quote, rule or item, or a table starts there |
| BlocksReadBack.BlankLinesAreNothing | app/ui/core/markdown.js:111-114 | blank lines before a block change nothing |
| ListsReadBack.ListReadsBack | app/ui/core/markdown.js:170-202 | items written with a mark, a box or none, words, lines indented past the mark and blank lines between read as one list of just those items with those blocks, each ticked where written so; it ends before a line no deeper that is no item of its kind, or one further out |
| TablesReadBack.RowReadsBack | app/ui/core/markdown.js:76-97 | cells written between pipes, pipes after a backslash in them too, read as those cells |
| TablesReadBack.BareRowReadsBack | app/ui/core/markdown.js:76-97 | pipes around a row are not needed |
| TablesReadBack.TableReadsBack | app/ui/core/markdown.js:204-211 | a row, a rule under each of its cells and rows read as a table of those rows, up to a line with no pipe |
| TablesReadBack.TwoRowsReadAs | app/ui/core/markdown.js:213-217 | two rows are a table exactly where the second has one rule under each cell of the first, else a paragraph of both |
| GoldenPaths.ClaudeRolePattern | tools/move_subagent_role_goldens.py:28 | the scan for Claude Code's role files finds exactly what the pattern says |
| GoldenPaths.CodexRolePattern | tools/move_subagent_role_goldens.py:29 | the scan for Codex's role files finds exactly what the pattern says |
| GoldenPaths.BesideRole | tools/move_subagent_role_goldens.py:83-84 | a role's sub-agents' file names its role back: no two roles share one |
| GoldenPaths.SubAgentsStandBeside | tools/move_subagent_role_goldens.py:83-84 | the sub-agents' file of a role's is the one of its name in the same directory, and the other way round |
| GoldenPaths.SiblingOfAny | tools/move_subagent_role_goldens.py:83-84 | beside any path is the file of that name in its directory; a path with no directory has none |
| GoldenPaths.PathsAreOrdered | tools/move_subagent_role_goldens.py:100-106 | the order of paths by big-endian UTF-16 is total, and no two paths are level in it |
| GoldenPaths.FirstDifferenceOrders | tools/move_subagent_role_goldens.py:100-107 | the first characters that differ decide, by their codes, but that one past U+FFFF comes before those from U+E000 to it; a path comes before one that goes on from it |
| GoldenTexts.NotForTheModelOnce | tools/move_subagent_role_goldens.py:37-43 | the front matter line is there once and at the top, what a text said is kept, and a second time changes nothing |
| GoldenTexts.FrontMatterGainsTheLine | tools/move_subagent_role_goldens.py:37-43 | front matter without the line gains it at its top; with it, it stays |
| GoldenTexts.OtherTextsGainFrontMatter | tools/move_subagent_role_goldens.py:37-43 | a text with no front matter gains one of that line alone; no text stays none |
| GoldenTexts.WriteTomlString | tools/move_subagent_role_goldens.py:46-65 | the loop over characters, equal to the string written |
| GoldenTexts.TomlReadsBack | tools/move_subagent_role_goldens.py:46-65 | a reader of TOML 1.0.0 basic strings reads back every text exactly |
| GoldenTexts.WrittenOneByOne | tools/move_subagent_role_goldens.py:46-65 | a text is written a character at a time |
| GoldenTexts.EscapedAre | tools/move_subagent_role_goldens.py:50-63 | how each character is written: marks and backslashes after a backslash, line ends by letters, other controls by their codes, all else as it is |
| GoldenTexts.SubAgentsReadBack | tools/move_subagent_role_goldens.py:74-80 | a sub-agent's configuration is one setting that says all of what it is told; there is one exactly where the role is said |
| GoldenTexts.SubAgentsAreToldTheirOwn | tools/move_subagent_role_goldens.py:68-80 | whatever stands before the first naming of the role is told, then that this is not the one of that role, the sentence written out; a reader of TOML reads just that |
| GoldenTexts.NoSubAgentsExactlyWhere | tools/move_subagent_role_goldens.py:74-80 | there is no configuration exactly where the text names no role |
| GoldenMove.MovedTwice | tools/move_subagent_role_goldens.py:87-97 | files already moved are moved to themselves |
| GoldenMove.MoveFiles | tools/move_subagent_role_goldens.py:87-97 | the two passes over the files, in any order, give the moved files, or fail exactly where a role says no role |
| GoldenMove.MovedFilesHold | tools/move_subagent_role_goldens.py:87-97 | beside each role of Codex's with a text is a file of what its sub-agents are told, with the role's mode; Claude Code's roles are not for the model; every other file is as it was |
| GoldenMove.ChangesReplay | tools/move_subagent_role_goldens.py:104-112 | what changed, replayed on what was, is what is |
| GoldenMove.ChangesSay | tools/move_subagent_role_goldens.py:104-112 | a change names each path that differs once, in order, and no other |
| GoldenMove.SayChanges | tools/move_subagent_role_goldens.py:104-112 | the loop over the sorted paths, equal to the changes above |
| GoldenMove.MovedEnvTwice | tools/move_subagent_role_goldens.py:115-128 | an environment moved stays as it is and names what it should |
| GoldenMove.MovedEnvNames | tools/move_subagent_role_goldens.py:115-128 | the sub-agents' file beside the role's is named right after it where none was, the agent types right after the sub-agents' file where none were, and all else stays; it fails exactly where the role's file is in no directory |
| GoldenMove.MeaningIsKept | tools/move_subagent_role_goldens.py:131-152 | after every step the rewritten trees replay to exactly the moved files of what the original trees replay to |
| GoldenMove.RecordIsMoved | tools/move_subagent_role_goldens.py:144-150 | a moved record says the changes between the files around it, or no tree where it had none and nothing changed; environments alone are moved, under Codex alone |
| GoldenMove.MovedRecordsTwice | tools/move_subagent_role_goldens.py:131-152 | a scenario already moved is moved to itself, its trees and environments too |
| GoldenMove.MovesExactlyWhen | tools/move_subagent_role_goldens.py:74-152 | a scenario is moved exactly when at each step every role said can be and every environment can be |
| GoldenMove.Move | tools/move_subagent_role_goldens.py:131-152 | the loop over the records in place: each is what the functions say, and the count is of those that changed |
| GoldenMove.DifferencesAreCounted | tools/move_subagent_role_goldens.py:138-152 | the count is of the places where a record is not what it was |
| Reloads.PageReloads.Failed | app/src-tauri/src/page_reloads.rs:43-65 | the limiter's method with its popping loop |
| Reloads.LoadsAreApart | app/src-tauri/src/page_reloads.rs:41-65 | no two loads are closer than five seconds |
| Reloads.SixLoadsTakeTheWhile | app/src-tauri/src/page_reloads.rs:41-65 | any six loads in a row span a minute or more |
| Reloads.QueueDecidesAsHistory | app/src-tauri/src/page_reloads.rs:50-63 | the pruned queue decides as counting over every load ever made would |
| Reloads.SaidExactly | app/src-tauri/src/page_reloads.rs:41-65 | by the loads made so far: nothing while one is due, given up where the fifth last was within a minute, else a load at once or five seconds after the last, the later of the two |
| Reloads.LoadsGrow | app/src-tauri/src/page_reloads.rs:59-64 | each failure adds the one load it led to, at the time it was said to be made |
| Reloads.GivenUpExactlyWhen | app/src-tauri/src/page_reloads.rs:57-60 | given up exactly at a failure with no load due that comes less than a minute after the last load but four |
| Reloads.GivenUpIsSaidOnce | app/src-tauri/src/page_reloads.rs:44-46 | given up on once, and said so at every failure after |
| Reloads.SlowFailuresAreLoadedAtOnce | app/src-tauri/src/page_reloads.rs:41-65 | failures twelve seconds apart or more are each loaded at once |
| Reloads.FasterFailuresAreGivenUpOn | app/src-tauri/src/page_reloads.rs:41-65 | no shorter time does: six failures evenly spaced at any less are given up on at the sixth |
| LoginShells.LoginLookup.Start | app/src-tauri/src/daemon_command.rs:400-415 | a shell started and held in one step, none once the app quits |
| LoginShells.LoginLookup.Finish | app/src-tauri/src/daemon_command.rs:441-449 | one's own shell ended, then let go |
| LoginShells.LoginLookup.End | app/src-tauri/src/daemon_command.rs:457-463 | every shell held ends |
| LoginShells.LiveShellsAreHeld | app/src-tauri/src/daemon_command.rs:397-463 | in every interleaving, each shell that lives and was not ended is held as one lookup's own |
| LoginShells.LookupsFindTheirOwn | app/src-tauri/src/daemon_command.rs:418-449 | a lookup always finds the shell it started, and no other |
| LoginShells.QuitLeavesNone | app/src-tauri/src/daemon_command.rs:457-463 | once the app quit no shell ever started lives, and none is started |
| LoginShells.OverLeavesNone | app/src-tauri/src/daemon_command.rs:441-454 | a lookup that is over leaves no shell of its own running |
| LoginShells.OnlyHeldAreKilled | app/src-tauri/src/daemon_command.rs:397-463 | no shell is ended but a lookup's own |
| MarkedOutput.Find | app/src-tauri/src/daemon_command.rs:583-587 | where the marker first is, none where it is nowhere |
| MarkedOutput.Between | app/src-tauri/src/daemon_command.rs:564-580 | what the pieces say between the first marker and the next, as early as they say it, nothing where they never do |
| MarkedOutput.SaidStays | app/src-tauri/src/daemon_command.rs:564-580 | what is read of some of an output is what the whole says |
| MarkedOutput.CutsDoNotMatter | app/src-tauri/src/daemon_command.rs:564-580 | however an output is cut, the same is read from it |
| TableRows.WriteCell | tools/move_harness_models_goldens.py:54-67 | the loop over characters, equal to the cell written |
| TableRows.WriteTable | tools/move_harness_models_goldens.py:70-85 | the staff table, none where a member has no tier |
| TableRows.OneLineStays | tools/move_harness_models_goldens.py:54-67 | a text with no line end in it is written as it is but for its bars |
| TableRows.LinesAreJoined | tools/move_harness_models_goldens.py:54-67 | a run of line ends, however long, is one space |
| TableRows.Cells | app/ui/core/specs-folder.js:170-188 | the loop over bars, equal to the reading below |
| TableRows.RowReadsBack | app/ui/core/specs-folder.js:170-188 | whatever its cells say, bars, backslashes and both together, a row reads back as its cells, trimmed and on one line each (section 4.10 of the GitHub Flavored Markdown Spec) |
| TableRows.TableReadsBack | tools/move_harness_models_goldens.py:70-85 | each member's line of the table reads back as what it says of them |
| TableRows.MembersAreSaid | tools/move_harness_models_goldens.py:46-85 | the columns are named, and each member's line reads as their name, model or the one shown for none, roles and words for the tier, for plain texts |
| DomPatch.Document.Patch | app/ui/dom.js:72-81 | the loop that appends, replaces and removes elements in a mutable document of nodes, texts between them left where they are, leaves the parent with exactly the trees below, and no other tree changed |
| DomPatch.TextsStay | app/ui/dom.js:72-81 | a parent's elements become what they would with no texts between them, and its texts stay in order |
| DomPatch.TextsKeepTheirPlaces | app/ui/dom.js:72-81 | where no fewer elements are drawn than there were, each text stands where it did |
| DomPatch.Document.DrawAt | app/ui/dom.js:73-79 | one place drawn: put at the end, kept, drawn inside or replaced |
| DomPatch.Document.Opens | app/ui/dom.js:83-88 | an element is drawn inside exactly where it is no button, its markup is the same and both hold only elements |
| DomPatch.PatchedIsSame | app/ui/dom.js:72-81 | what comes out is what replacing everything would give |
| DomPatch.PatchedLooks | app/ui/dom.js:72-81 | what there is to see after is what replacing everything would show, by a reading of trees that knows no nodes |
| DomPatch.DrawnAtItsPlace | app/ui/dom.js:72-88 | at its place a node that looks the same stays with all in it; one that differs stays itself with its contents drawn anew exactly where it is no button, its own markup is the same and neither holds text; any other gives way |
| DomPatch.SameStays | app/ui/dom.js:72-81 | what was the same at its place is the very nodes that were there |
| DomPatch.ButtonsAreWhole | app/ui/dom.js:55-81 | every button that comes out is an unchanged old one or a new one with all it came with |
| DomPatch.NothingToDraw | app/ui/dom.js:72-81 | drawn again as it is, every node stays |
| DomPatch.ChildrenStayApart | app/ui/dom.js:72-81 | no node comes out in two places, so what comes out can be drawn into again |
| Placement.Stage.Place | app/ui/core/terminals.js:319-328 | the stage's children are exactly those wanted, in order; and which cards were taken out or put in |
| Placement.StayingTouchedWhenOutOfOrder | app/ui/core/terminals.js:312-328 | no card that stays is touched exactly when those that stay already stood in the order wanted |
| ShellWords.DropReadsBack | app/ui/core/file-drop.js:55-67 | a drop's paths are read back by a POSIX shell (sections 2.2.1 and 2.3 of its command language) exactly when none is empty or holds a tab or a line end; so always where none holds a control character |
| ShellWords.WrittenOneByOne | app/ui/core/file-drop.js:18-57 | a character is written after a backslash exactly where a shell reads more of it than itself |
| ShellWords.WindowsWordsReadBack | app/ui/core/file-drop.js:55-67 | on Windows paths with no double quote are read back as one word each |
| ShellWords.QuotedOnlyForASpace | app/ui/core/file-drop.js:55-66 | on Windows a path is in double quotes exactly where it has a space |
| ShellWords.WithControl | app/ui/core/file-drop.js:37-40 | the first path with a control character, and none exactly where there is none |

## Left out

- MarkdownInline.EmphasisMemoIsNotExact: the memo of emphasis is shown inexact on one line and exact on every line with no link and no three of a mark in a row; which other lines it is exact on is not said, as that turns on how each skipped link or run lies to each later search.
- TerminalOutput.ProgressEndsFree: calls to the host do not fail in the model; a failed acknowledgement is asked again only when something more is drawn, so the release would then wait for that.
- TerminalSize.SettledSizeIsTheLastAsked: a call that failed after the host took the size counts as refused with no effect.
- Updates.InstallsWhatWasDownloadedForIt: the failure told after a worker's panic is taken to come from one that entered the install, or from one that found nothing under way and no bytes held; `Updates.StrayFailureBreaksIt` shows what it would do otherwise.
- DaemonLifecycle.EndedThreadLeavesNoneWaiting: a start that panics is a start that failed without a retry, and threads are taken to run on; how long anything takes is not modelled.
- TerminalOutput.TerminalLink.Output: an emulator is there for every live pane, as the app always makes one; an emulator whose write fails is left out.
- TerminalInput.AdmittedIsAPrefixOfEachCall: one page is followed from its start, with nothing of older pages on its way, and its chunks arrive in the order sent; InputReloads follows the numbers across reloads, and there too a page's own chunks arrive in order.
- TerminalInput.NumbersHaveNoGapOrRepeat: the same.
- TerminalInput.InputQueue.EnqueuePage: whether the pane's queue and the tickets have room is a parameter; a number past the largest the host counts to is left out.
- Versions.PrecedenceIsAnOrder: the order of the library that reads versions among builds of one precedence is any that puts no build first.
- MarkdownBlocks.FencedAt: of a fence's language only ASCII letters are put in lower case.
- MarkdownInline.SpansOf: a line is a sequence of characters; the page's are of UTF-16 units, which differ for characters past the Basic Multilingual Plane, none of them marks.
- LinkReadBack.LinkReadsBack: the texts around the link have no mark in them; what a link reads as with other marks around it is `LinkIsRead`, at its place.
- MarksReadBack.EmphasisReadsBack: the texts around the marks have no mark in them, and a run of the same mark inside is behind a backslash or in code; of lines with more marks only what `EmphasisMemo` and `MarkdownInline` state is proved.
- TableRows.MembersAreSaid: of members whose texts have no line ends and no spaces at their ends; `TableReadsBack` and `LinesAreJoined` say the rest.
- GoldenMove.Move: a scenario at a time; the sum over a file's scenarios, the reading and writing of the file and the keys of a record no step looks at are left out. Paths end in no line end, where a pattern's end would match before it.
- Reloads.PageReloads.Failed: times are unbounded numbers.
- LoginShells.LoginLookup.Start: numbers do not wrap round; a shell ended is taken to end, and one waited for has ended.
- MarkedOutput.Between: the deadline and the second's silence decide how many pieces come, which is the pieces given.
- TableRows.WriteTable: members' fields are there and of their types.
- DomPatch.Document.Patch: the nodes drawn are elements, each the one already at its place (app/ui/core/board.js:1194) or in no tree under the parent; a node moved from elsewhere under it is left out, and so is the focus set after.
- Placement.Stage.Place: the arrival numbers that put the cards in order are left out.
- ShellWords.WindowsWordsReadBack: a backslash before a quote is no escape, as in a terminal's line; programs that split their own line by other rules are left out.
- Drawing spans and blocks as elements, dialogs, layout, viewers and status lines: user interface with only easy members.
- The registry and link readers of the specs folder, the board's rows and the board's figures: filters and maps over what is given.
- Tauri, web views, processes, sockets, files and signatures: foreign calls, of which only the step each takes in a protocol is kept.
- The ledger, the engine and the bridge's own protocol: only the parts of the pane host that the terminal link meets are modelled.
