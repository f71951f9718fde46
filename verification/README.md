# storydump, modelled

Four parts of the repository and four smaller ones, each modelled in Dafny with the branches, constants and
error cases of its code, and proved to keep what its documentation and tests promise.

- **The SQL lexer, splitter and normalizer** (`Chars`, `SqlLexer`, `LexerReadings`, `Splitter`, `LexerLaws`,
  `ExecutionMode`, `BareBegin`, `Continuation`, `Normalizer`, `Escapes`, `Uncommenting`, `Squeezing`, `Marks`,
  `MarkReadings`, `NormalizerLaws`, `LayoutLaws`, `NormalizerLimits`). The scanner's methods are tied to a recursive
  reading of the rest of the text, and `LexerReadings` says of the positions of the text, without that recursion,
  where each form opens and closes. Everything the runner relies on rests on one fact, `LexerLaws.FormCut`: text after
  a form's end does not move it, so lexing a piece agrees with lexing the whole. What normalizing may move is said
  character by character in `Marks`: each character but whitespace with where it stands, and exactly when collapsing
  leaves all of them there.
- **The migration runner** (`Migrations`, `Database`, `Transcripts`, `LedgerRules`, `Outcomes`, `Adoption`, `Verbs`,
  `Refusals`, `Runner`, `RunnerHistories`, `RunnerProgress`, `RunnerEffects`, `RunnerInterleaving`). A session is a
  class with committed and working state, a transaction status and autocommit; any statement, probe, commit, rollback
  or lock wait may fail, and a lost connection may hide a commit that arrived. It keeps a transcript of what was sent
  and what came back, lock tries and the runner's own queries included: `Transcripts` says what it must hold before a
  ledger row is worth its word, and `Refusals` what it, or the rows at the lock, must hold before a verb may refuse.
  Each verb's method is proved to end as `Verbs.RunEnds` says, and the laws over whole histories are about that
  relation. Taking the lock lets the committed state be anything, as other runs left it; `RunnerInterleaving` shows
  that nothing else writes while it is held, over plans that `RunnerInterleaving.RunIsPlanned` proves to be the verbs'
  own.
- **The changelog fold** (`Changelog`, `FragmentFile`, `ChangelogLaws`, `ChangelogFold`, `ChangelogReading`,
  `FoldedText`, `PlacedEntries`). The in-place insertion is tied to a recursive placing; merging and commuting of
  placings make the fold an exact action of the list of fragments on the text. `PlacedEntries` and `FoldedText` say of
  the lines themselves where an insertion splices and what a fold keeps.
- **The scheduling monitor** (`JsonValues`, `SchedulingHealth`, `Monitor`, `MonitorLaws`, `MonitorMessages`,
  `MonitorRuns`, `MonitorTiming`). One poll is a method over three axes with messages that may be lost; the laws are
  about every run of polls from an empty state file. `MonitorMessages` says which message is true of a reading and of
  what a human was last told; at most one is, and what is said is that one.
- **Smaller parts**: the watch diff and loop (`Watch`, `WatchLaws`, `WatchEndings`), the request body limit
  (`BodyLimit`, `BodyTotals`), path redaction (`Redaction`, `RedactionLaws`, `RedactionReadings`), the database URL
  (`DbUrl`). `Joining` holds facts about splitting text that several parts share.

What came out of the proofs, where the code and what is said of it part ways:

- The normalizer is said to refuse a statement whose quotes it would move. It compares kinds of segments, not where
  their quotes stand, and so can pass one (`NormalizerLimits.MovedQuotesPassTheGuard`). The exact condition, read off
  the statement beforehand: its quotes stay if and only if, with spaces for comments, no escape string is carried over
  a line break and no whitespace that counts as part of a word (a no-break space does) hides a quote's prefix or a
  dollar tag (`NormalizerLaws.QuotesStayIffSettled`). Then it is never refused, and every refusal is of a statement
  whose quotes would move (`NormalizerLaws.NormalizingIsFaithful`). One-line statements and statements with no escape
  string meet it (`NormalizerLaws.OneLineIsSettled`, `NormalizerLaws.PlainIsSettled`).
- A failed apply can be resumed if and only if none of the files it recorded carries a retired chain's checksum in a
  tree that has an initial version (`RunnerProgress.PrefixIsAccepted`): such a row, once recorded, reads as retired
  history.
- A stored time of 0 counts as never told, so the monitor's timing laws ask for a clock past zero.

## Model

| member | source | states |
|---|---|---|
| SqlLexer.Quoted | scripts/sql_lexer.py:148-157 | the loop that looks for the next quote ends where the recursive reading of a quoted body ends: at the first lone quote, doubled ones inside, or unclosed at the end of the text |
| SqlLexer.Escaped | scripts/sql_lexer.py:160-177 | the escape-string loop ends where its reading does: a backslash takes the next character, a doubled quote stays inside, and a continuation goes on into the next quote; a backslash at the very end leaves the text unclosed and inside its bounds |
| SqlLexer.NestedComment | scripts/sql_lexer.py:180-195 | the depth-counting loop ends where nested block comments balance, or unclosed at the end |
| SqlLexer.ScanForm | scripts/sql_lexer.py:111-145 | at every position the branch taken, its end and whether it is closed are those of the form that the rest of the text opens with, whatever stands before it; what that form is, `LexerReadings.FormIsRead` says |
| SqlLexer.Segments | scripts/sql_lexer.py:90-108 | the scanner with its two indices returns exactly the segments of the recursive lexing, code runs joined |
| LexerReadings.FormIsRead | scripts/sql_lexer.py:111-199 | for every text, a form is the one read at its head if and only if it opens as its kind is written and closes where that kind closes, or nowhere: a quoted text at its first lone quote, an escape string at the end of its path of steps, a dollar body at the first place its tag stands again, a line comment before the first line break, and a block comment where `/*` and `*/`, read from the left, balance for the first time |
| LexerReadings.SegmentIsRead | scripts/sql_lexer.py:90-108 | every segment of a text is such a form, or a run of code, read where the segment stands |
| LexerLaws.LexIsPartition | scripts/sql_lexer.py:90-108 | segment texts are non-empty and concatenate to the input, no two code segments are adjacent, and only the last segment can be unclosed |
| LexerLaws.FormCut | scripts/sql_lexer.py:111-145 | a form that ends by a `;` reads the same when the text is cut at that `;` |
| LexerLaws.LexCut | scripts/migration_runner.py:375-396 | cutting a text at its first `;` in code splits its fragments there: the first is what its own text lexes to, the rest are those of the text after the cut |
| LexerLaws.FragmentsArePieces | scripts/migration_runner.py:375-396 | lexing each piece of a file again gives exactly the segments that piece had inside the whole file |
| LexerLaws.SplittingIsAHomomorphism | scripts/migration_runner.py:375-396 | every fragment of a file re-lexes to its own segments, splits to itself alone, and is kept exactly when it holds code |
| LexerLaws.FileIsItsFragments | scripts/migration_runner.py:375-396 | kept and dropped fragments joined by `;` rebuild the file, the kept ones are the statements in order, and the dropped ones are exactly those with nothing but comments and whitespace |
| LexerLaws.CutsAreInCode | scripts/migration_runner.py:375-396 | no fragment has a `;` left in its code, and every segment that is not code comes through whole and in order: the cuts are at every `;` in code and nowhere else |
| Splitter.SplitStatements | scripts/migration_runner.py:375-396 | the loop over segments and parts, with its open pieces and its flag, returns the texts of the fragments that hold code |
| ExecutionMode.ModeOf | scripts/migration_runner.py:276-289 | no-transaction exactly on the marker; self-managed exactly when some statement, comments aside, is a bare `BEGIN` |
| ExecutionMode.ModeIsTheFilesOwn | scripts/migration_runner.py:276-289 | the mode read from the cut statements is the one the whole file, lexed once, means |
| BareBegin.OpensBlockIsBareBegin | scripts/migration_runner.py:284-288 | a statement opens a block if and only if one of its pieces of code is, with whitespace around it, a word whose upper case is `BEGIN`, and all its other segments are comments or blank |
| Continuation.BeforeBreakIsLongest | scripts/sql_lexer.py:65-69 | searching the continuation pattern with its comment alternative giving characters back finds the longest continuation there is, and none only when there is none |
| Continuation.AfterBreakIsLongest | scripts/sql_lexer.py:65-69 | the same for the part after the line break |
| Normalizer.NormalizeStatements | scripts/sql_lexer.py:202-238 | the loop returns the keys of the statements in order, or the refusal of the first statement whose shape would change |
| Uncommenting.UncommentStep | scripts/sql_lexer.py:227-238 | replacing comments by spaces leaves the form at the head of a text as it was, or a blank where it was a comment, unless it makes an escape string there go on over a line break |
| Uncommenting.UncommentLeavesNone | scripts/sql_lexer.py:227-238 | where no escape string is carried over a line break, the text with a space for every comment lexes to no comment, keeps its code, and is left alone by a second replacing |
| Uncommenting.UncommentCut | scripts/sql_lexer.py:227-238 | where no escape string is carried over a line break, replacing comments and cutting at a `;` in code commute |
| Marks.MarksKept | scripts/sql_lexer.py:218-238 | collapsing whitespace leaves every other character where it stood, in code, in a comment or in a quoted form of the same kind, opening it or not, closed or not, if and only if no escape string is carried over a line break and no whitespace inside a word hides a quote's prefix or a dollar tag |
| MarkReadings.MarksTell | scripts/sql_lexer.py:241-246 | the compared shape, whether a text holds code or a comment, and whether a `;` cuts it, can all be read off where its characters stand |
| NormalizerLaws.QuotesStayIffSettled | scripts/sql_lexer.py:216-219 | for every statement: normalizing leaves its quotes where they were if and only if, with spaces for comments, no escape string is carried over a line break and no whitespace inside a word hides a prefix or a tag |
| NormalizerLaws.KeyIsOneLine | scripts/sql_lexer.py:209-213 | whatever the statement, the key is one line: every whitespace character in it is a single space between two other characters |
| NormalizerLaws.NormalizingIsFaithful | scripts/sql_lexer.py:202-238 | for every file: if it is refused, the statement named is one whose quotes would move, and a file of settled statements is not refused; otherwise there is one key a statement, each one line, and each key bounds what its statement bounds, holds no comment and normalizes to itself alone if and only if its statement is settled |
| NormalizerLaws.OneLineIsSettled | scripts/sql_lexer.py:216-219 | a statement on one line, with no character both blank and part of a word, is settled whatever escape strings it holds |
| NormalizerLaws.PlainIsSettled | scripts/sql_lexer.py:216-219 | and so is one of any number of lines with no escape string |
| NormalizerLaws.CommentsDoNotCount | scripts/sql_lexer.py:202-206 | where no escape string is carried over a line break, replacing every comment by a space beforehand leaves the outcome, keys or refusal, the same |
| LayoutLaws.LayoutDoesNotCount | scripts/sql_lexer.py:202-206 | two settled files that differ only in layout and comments, being the same text once comments are spaces and runs of whitespace one space, are not refused and have the same list of keys |
| NormalizerLimits.NoBreakSpaceIsRefused | scripts/sql_lexer.py:57-57 | a no-break space, blank and part of a word at once, hides the prefix of a literal: a statement with no escape string that is not settled, and refused |
| NormalizerLimits.MovedQuotesPassTheGuard | scripts/sql_lexer.py:229-246 | a statement that is not settled and not refused either: its quotes move, the two shapes are the same, and its key still lexes to a comment |
| NormalizerLimits.MovedCommentsCount | scripts/sql_lexer.py:202-206 | in the same statement, where an escape string is carried over a line break, comments do count: with its comment replaced by a space beforehand it does not have the same key |
| Database.Session.Execute | scripts/migration_runner.py:634-645 | a statement takes effect in the working state inside a transaction and at once in autocommit, or fails leaving an aborted or lost session; nothing outside the lock writes, and it joins the transcript with its reply |
| Database.Session.CommitWork | scripts/migration_runner.py:634-645 | a commit publishes the working state; one whose answer is lost may or may not have arrived |
| LedgerRules.LedgerDiscrepancies | scripts/migration_runner.py:648-678 | the list is empty exactly when every row has its file with its checksum and no retired row stands; otherwise it names the unfit rows, in order |
| LedgerRules.AppliedHead | scripts/migration_runner.py:811-833 | a version is below the head exactly when some recorded version is above it |
| Runner.RunPostconditions | scripts/migration_runner.py:689-697 | success means exactly every postcondition was asked, in order, and answered true |
| Runner.ApplyWrapped | scripts/migration_runner.py:713-730 | a wrapped file ends with exactly one full execution and its row, or, but for a lost connection that hides the commit, with nothing; a row was written only after the file's work and then every postcondition, asked in order and answered true; a failure has a cause among what was sent and answered; on a lock timeout the session is idle and nothing changed |
| Runner.ApplyUnwrapped | scripts/migration_runner.py:731-760 | success means all statements ran in order, no transaction is open, every postcondition was then asked in order and answered true, and then the row was written; failure leaves what the statements committed so far and no row |
| Runner.ApplyGuarded | scripts/migration_runner.py:763-788 | a wrapped file that fails on a lock timeout is tried again, up to five attempts and always five if the last fails so; nothing else is tried again; the file ends as one attempt may, and a row means that some attempt ran it whole |
| Runner.AcquireLock | scripts/migration_runner.py:449-482 | held exactly on success, with no transaction open throughout, and at most 1 + max(1, ceil(wait / poll)) tries when every sleep moves the clock by its argument; it gives up for time only when every try was answered held and the whole wait is over, and for any other reason only on an answer that failed |
| Runner.ReleaseLock | scripts/migration_runner.py:485-519 | whatever the session was left in, its open block is ended, and then the unlock is sent once, with none open; only a session that was lost sends none; nothing is committed by it |
| Runner.OpenLedger | scripts/migration_runner.py:810-814 | success hands over exactly the committed rows, none retired and none unfit; a refusal leaves the ledger as it was, at most with its empty table made |
| Runner.CheckPending | scripts/migration_runner.py:816-833 | refused exactly for an unrecorded initial file or a file below the head that is neither manual nor safe to apply again |
| Runner.ApplyPending | scripts/migration_runner.py:791-838 | a pooled host is refused, and nothing else is refused so, before anything is sent; a run ends with a version-ordered prefix of its plan applied, all of it on success, and each new row earned by its file run whole; any other refusal has its cause in the transcript, or in the rows at the lock; on every path that took the lock the unlock is sent exactly once with no block open, but from a session already lost, and then the connection is closed |
| Refusals.NothingToRefuse | scripts/migration_runner.py:791-838 | where every answer of a run of apply came back and every postcondition asked was true, and the rows at the lock are accepted, there is nothing that apply may refuse, whatever the refusal |
| Runner.ApplyManual | scripts/migration_runner.py:841-901 | refused for its arguments exactly when there is no such file or it is not manual, then exactly on a pooled host, before anything is sent; a gated file is applied only with its ledger intact, unrecorded, and every ordinary file below it recorded; any other refusal has its cause, its row is earned and the lock let go as in apply |
| Adoption.LoadManifest | scripts/migration_runner.py:912-987 | a manifest is read if and only if each version is listed once with one kind of evidence, none is asserted above the floor, none lacks a file, and every file of the window is listed or carries postconditions; its evidence is then, entry by entry, the assertion or the one probe listed, or those postconditions |
| Adoption.Judge | scripts/migration_runner.py:1003-1022 | evidence holds if and only if it is asserted or every probe was asked, in order, and answered true; it fails to hold only on a probe that was asked and answered otherwise, none after it being asked |
| Adoption.AdoptionPlan | scripts/migration_runner.py:990-1052 | every unrecorded file is judged by its own evidence as asked and answered on the session, and what is recorded is exactly what was proven, in order: nothing false at or below the floor, and nothing proven above a file that is neither proven nor safe to apply again |
| Runner.Adopt | scripts/migration_runner.py:1055-1080 | refused for its manifest exactly when it is not readable, and then exactly on a pooled host, before anything is sent; past that the evidence judged is the manifest's own, entry by entry, an assertion or its probe, and a file's postconditions where it is not listed; adoption records, in one transaction or not at all, exactly the files whose evidence was shown, any other refusal has its cause, and the lock is let go as in apply |
| Runner.ConvertLedger | scripts/migration_runner.py:1083-1175 | refused exactly when not confirmed, then exactly for an unreadable manifest, then exactly on a pooled host, before anything is sent; conversion renames the retired table and records the adopted rows, shown by the manifest's own evidence, in one transaction, or changes nothing and has a cause |
| Runner.Repair | scripts/migration_runner.py:1178-1205 | refused exactly for a blank reason, then for a version with no file, then on a pooled host; a repair changes one existing row of one file of the tree to that file's checksum, and any other refusal has its cause |
| RunnerHistories.RunKeepsNoGap | scripts/migration_runner.py:816-837 | whatever verb, and wherever it succeeds or fails: every file below the ledger's head stays recorded unless it is manual or safe to apply again |
| RunnerHistories.HistoryKeepsNoGap | scripts/migration_runner.py:816-837 | the same over every history of runs of the five verbs |
| RunnerHistories.HistoryIsShown | scripts/migration_runner.py:689-760 | over every history no row is recorded without its evidence: each row of each ledger was in the first, or some run of it ran the row's file whole with every postcondition true, or its manifest asserted the version, or its manifest's own probe, or the file's postconditions where it was not listed, was asked in order with every answer true, or it was repaired to its file's checksum |
| RunnerProgress.FailedRunIsAPrefix | scripts/migration_runner.py:834-838 | a run of apply that failed over wrapped files left the ledger and the effects of a prefix of its plan |
| RunnerProgress.RestOfPlan | scripts/migration_runner.py:791-838 | after a prefix is recorded, the next run's plan is exactly the rest |
| RunnerProgress.PrefixIsAccepted | scripts/migration_runner.py:811-833 | after a prefix is recorded the next run passes every check if and only if no recorded file of a tree with an initial version carries a retired checksum |
| RunnerProgress.RetiredChainIsRefused | scripts/migration_runner.py:588-632 | a ledger of versions 1 to 149, none of whose rows carries a checksum or a name of the files of a tree with the three replacement files, is what conversion takes for the retired chain, and apply refuses it whatever the bound |
| RunnerProgress.RetriesAreOneRun | scripts/migration_runner.py:791-838 | any number of failed runs followed by a success leaves exactly the database of one uninterrupted run |
| RunnerProgress.AdoptHandsApplyItsLedger | scripts/migration_runner.py:1069-1080 | after a successful adopt or conversion with a floor of 0 or more, apply is refused neither for integrity, nor for the initial file, nor for a file below the head, and what it would apply lies above what was adopted |
| RunnerProgress.ConversionKeepsTheRetired | scripts/migration_runner.py:1103-1175 | conversion keeps every retired row in the renamed table, or changes nothing |
| RunnerEffects.HistoryRunsOnce | scripts/migration_runner.py:713-788 | over every history a wrapped file either left no work behind or ran exactly once, whole, and is recorded with its checksum |
| RunnerEffects.ApplyLeavesGatedFiles | scripts/migration_runner.py:834-838 | no run of apply executes or records a manual file |
| RunnerInterleaving.NextKeepsInv | scripts/migration_runner.py:523-560 | each step of any of N runners keeps: one holder of the lock at most between taking and giving it, no transaction open while waiting, and tables that the runs so far reach one after another |
| RunnerInterleaving.RunIsPlanned | scripts/migration_runner.py:791-1205 | however a run of any verb ended, its ledger and retired table are those of a part of a plan of transactions made from the tables it found, and of the whole plan if it succeeded: the plans the interleaving is about are the verbs' own |
| RunnerInterleaving.RunsAreSerial | scripts/migration_runner.py:449-560 | under every interleaving the tables are those of the runs in the order they took the lock, each committing a part of what it planned from what the one before left |
| RunnerInterleaving.LockGoesBackAlone | scripts/migration_runner.py:485-560 | at the step by which a runner gives the lock back, or loses it, it has no block open, and every other runner is outside its critical part with nothing open |
| RunnerInterleaving.NoGapWhoeverRuns | scripts/migration_runner.py:816-837 | at every state of every interleaving of any number of runners, dying anywhere: every file below the ledger's head stays recorded unless it is manual or safe to apply again |
| RunnerInterleaving.PlansAreFresh | scripts/migration_runner.py:834-838 | a run inserts no version its ledger has, and none twice |
| RunnerInterleaving.NoVersionTwice | scripts/migration_runner.py:834-838 | under every interleaving no version is inserted while the ledger has it |
| Changelog.Document.Insert | scripts/changelog_fragments.py:120-143 | the loop that moves down the lines and splices them in place leaves the entries where the recursive placing puts them |
| Changelog.Fold | scripts/changelog_fragments.py:146-155 | the changelog after every section was folded in turn, or a refusal exactly when it has no unreleased heading; what that is, the rows below say of the lines |
| PlacedEntries.InsertionIsASplice | scripts/changelog_fragments.py:120-143 | one insertion is one splice, written out: at the first line below the unreleased heading that starts a release, names a section at or past this one's place, or names one not after all those above it; behind that line when it is the section's own heading, and otherwise before it under a new heading, with the blank lines the code puts around them |
| PlacedEntries.FoldKeepsOlderGroups | scripts/changelog_fragments.py:120-155 | a fold keeps, line for line, everything from the first line below the unreleased heading that starts a release or names a section out of order, and leaves the group above it ending at that line still |
| FoldedText.FoldKeepsReleases | scripts/changelog_fragments.py:126-155 | a fold keeps, line for line, everything down to the unreleased heading and everything from the first line below it that starts with `## `; no line it adds in between starts so |
| FoldedText.EntriesStandFirst | scripts/changelog_fragments.py:146-155 | after a fold the entries of each section a fragment names stand, under an empty line, right below the first line under the unreleased heading that reads as that section, with no release above it |
| FragmentFile.Parse | scripts/changelog_fragments.py:79-117 | the file's one outcome: the first line at fault with its fault, no section at all, a section without an entry, or each heading's body to the next heading, without the blank lines around it |
| FragmentFile.LinesAreSplit | scripts/changelog_fragments.py:84-84 | a file's first line is what stands before its first line end, a carriage return and line feed together being one, and a last line needs none |
| ChangelogLaws.HeadingIsHashes | scripts/changelog_fragments.py:47-47 | a line is a heading if and only if it is one to six hashes and then a whitespace character |
| FragmentFile.ParsedIsClean | scripts/changelog_fragments.py:79-117 | a fragment that parses holds no heading in any entry, and no entry ends in a blank line |
| ChangelogLaws.Merge | scripts/changelog_fragments.py:120-143 | two insertions into one section are one insertion of the later entries, a blank line and the earlier ones, blank lines around them included |
| ChangelogLaws.Commute | scripts/changelog_fragments.py:120-143 | insertions into two different sections commute, line for line |
| ChangelogLaws.HeadingInAnEntryBreaksIt | scripts/changelog_fragments.py:88-98 | were an entry to hold a heading, two insertions would not commute: parsing has to refuse it |
| ChangelogFold.FoldIsAnAction | scripts/changelog_fragments.py:146-155 | folding A and then B is folding B ++ A, character for character, and folding nothing changes nothing |
| ChangelogReading.PlaceReads | scripts/changelog_fragments.py:120-143 | one insertion puts the entries first in its section, keeps every other section but for empty lines at its end, and leaves older groups as they were |
| ChangelogReading.FoldReadsBack | scripts/changelog_fragments.py:120-155 | after a fold each section of the newest group holds the fragments' entries, in order, ahead of its old body; the headings above the older groups are exactly the old ones and the folded sections', each once and in the order of the sections; what stands above, older groups and releases are untouched, and every original line survives in order |
| Monitor.Poll | scripts/scheduling_monitor.py:500-529 | the loop over the three axes keeps each as its own message's fate decides, records a failed delivery, and exits 11, 10 or 0 accordingly; what each message says, `MonitorMessages.MessageIsTrue` fixes |
| MonitorLaws.EveryAxisDecidesAlike | scripts/scheduling_monitor.py:117-351 | the three axes follow one rule: a trouble that has lasted is said unless it was said within its interval, and a calm reading speaks exactly to whoever was told of a trouble |
| MonitorMessages.MessageIsTrue | scripts/scheduling_monitor.py:117-351 | on every axis a message says what was read: a page names the fault that the reading shows and the run of it, a split its commits and minutes, and a closing word or an all-clear is the one that fits both the reading and the last state a human was told of |
| MonitorMessages.OneIsTrue | scripts/scheduling_monitor.py:117-351 | and of all messages only one is true at a time, so that rule fixes the message |
| MonitorMessages.EveryMessageIsTrue | scripts/scheduling_monitor.py:85-351 | over every run from an empty state file, each message is true of its reading and of the state a human was last told, found in the log, and a page's run is the number of equal readings the log ends in |
| SchedulingHealth.WholeReadings | storydump_cli/health_classify/scheduling.py:200-238 | a whole reading is worker-down, without a signal, unknown, stalled or healthy, each if and only if its own condition on the worker's age, the active accounts and the lag holds |
| MonitorRuns.EachPollIsPolled | scripts/scheduling_monitor.py:500-529 | every step of the run model is a poll the loop may make |
| MonitorRuns.KnowsTheLog | scripts/scheduling_monitor.py:85-114 | over every run from an empty state file, `announced` and `spoke_at` are the state and time of the last message a human got, and empty when there was none |
| MonitorRuns.InformedAfterARun | scripts/scheduling_monitor.py:85-247 | after every run of polls one whose message was not lost leaves a human knowing what it read |
| MonitorRuns.LostIsSaidUntilHeard | scripts/scheduling_monitor.py:500-526 | a message that is lost is said again at every poll that reads the same, however many in a row are lost |
| MonitorRuns.TwoBrokenReadingsPage | scripts/scheduling_monitor.py:168-175 | two readings in a row that are not whole always page, unless a human was told so within the repeat interval |
| MonitorRuns.RunIsTrailing | scripts/scheduling_monitor.py:102-104 | `consecutive` is exactly the length of the run of equal readings the log ends in |
| MonitorRuns.DeliveryRunIsTrailing | scripts/scheduling_monitor.py:269-311 | for delivery the run restarts after a reading held while the API is down, and such a reading counts nothing |
| MonitorRuns.SeenIsTheMost | scripts/scheduling_monitor.py:138-144 | `max_active_seen` is the most destinations any reading has shown |
| MonitorTiming.SaidApart | scripts/scheduling_monitor.py:117-121 | a trouble is not said again within its interval of the last time a human heard of it |
| MonitorTiming.SilenceIsShort | scripts/scheduling_monitor.py:117-121 | a poll silent about a lasting trouble follows a message about it less than its interval ago |
| MonitorTiming.HeardInTime | scripts/scheduling_monitor.py:117-121 | in an unbroken, delivered run of one trouble the time between two messages is at least the interval and less than that, one poll gap and one delivery |
| MonitorTiming.EndIsSaidToWhoWasTold | scripts/scheduling_monitor.py:235-247 | RECOVERED, SIGNAL ACQUIRED and RESOLVED are said if and only if the last thing a human was told on that axis was a trouble |
| MonitorTiming.SinceIsTheFirst | scripts/scheduling_monitor.py:341-342 | `since` is the time the split that still stands was first read, with no matching reading after it |
| MonitorTiming.SplitPagesLate | scripts/scheduling_monitor.py:341-351 | a split pages only once it stood for half an hour uninterrupted by a matching reading |
| Watch.KeyedBy | storydump_cli/watch.py:207-216 | the loops fill the two-level dictionary of the reading, in insertion order, a later row replacing an earlier one in place |
| Watch.DiffOf | storydump_cli/watch.py:219-255 | the three loops print the sections and changes of the two keyed readings in their order |
| Watch.Run | storydump_cli/watch.py:330-398 | the loop prints every reading's diff against the reading before it, goes on only past turns that do not end it, and ends as the first turn that does says; four reads in a row without an answer always end it |
| WatchEndings.WhenAWatchGoesOn | storydump_cli/watch.py:330-398 | a watch goes on past a turn if and only if it was no refusal and no interrupt, came before the deadline, does not complete four reads in a row without an answer, and its reading neither fails nor ends the verb |
| WatchEndings.HowAWatchEnds | storydump_cli/watch.py:330-398 | and where it does not, its ending is the one that the last turn gives: failure before the verb's own end, and that before the deadline |
| WatchEndings.JudgedAreTheWorse | storydump_cli/watch.py:311-327 | a reading is judged on the printed rows that are new, or changed for the worse than the last row of the reading before with that scope and key, each once and in print order |
| WatchEndings.JudgedRowsAreWorse | storydump_cli/watch.py:311-327 | said of two readings: a row is judged if and only if the later one holds it last for its scope and key, and it is new there or differs for the worse |
| WatchLaws.KeyedIsTheLastRow | storydump_cli/watch.py:207-216 | the row kept for a scope and key is the last such row of the reading |
| WatchLaws.DiffNamesARowOnce | storydump_cli/watch.py:219-255 | a diff names a (scope, key) at most once and says of it exactly what its last rows in the two readings differ by |
| WatchLaws.ReplayShowsTheLast | storydump_cli/watch.py:341-396 | over any readings, replaying every printed change from nothing gives exactly the rows of the last reading |
| BodyLimit.Admit | src/api/app.py:251-259 | a declared length over the limit is refused before a byte is read and the application never runs |
| BodyLimit.Limiter.Arrive | src/api/app.py:268-277 | counting an arriving piece steps the state as specified: handed on within the limit, refused or hidden beyond it |
| BodyLimit.Limiter.GuardedSend | src/api/app.py:279-284 | a send up to its await steps the state as specified: taken up and counted as a start within the limit, dropped beyond it |
| BodyLimit.Limiter.SendOut | src/api/app.py:279-284 | an awaited send that is done reaches the client, whatever arrived meanwhile |
| BodyLimit.HandedWithinLimit | src/api/app.py:264-277 | under every interleaving the application is handed no more of the body than the limit |
| BodyLimit.NothingGetsThroughAfter | src/api/app.py:264-284 | once the total passed the limit nothing more is read, the application is handed only disconnects, and the client gets only what is left of the refusal and the send that was already under way |
| BodyLimit.ClientSees | src/api/app.py:264-284 | under every interleaving, sends suspended at their await included, the client sees what the application sent before the total passed the limit, each in its order, and the 413 if and only if no response had been started by then; an application that starts its response first is seen in one order, and then the 413 |
| BodyLimit.OneResponseStart | src/api/app.py:264-284 | an application that starts one response at most leaves the client with one response start at most |
| BodyTotals.WithinTheLimit | src/api/app.py:264-284 | while the pieces that arrived are no longer than the limit together, the application is handed every one in order and all it sends goes out in order, with no refusal |
| BodyTotals.PastTheLimit | src/api/app.py:264-284 | the first piece that takes the total past the limit ends the exchange: no later one is read, only disconnects are handed on after the pieces before it, and once all sends are out the client has what was sent before it, and the 413 exactly if that held no start |
| RedactionLaws.NameStays | src/utils/logger.py:176-185 | whatever parameters follow it, a segment's name is the same |
| RedactionLaws.FirstEndAgrees | src/utils/logger.py:188-195 | two paths with the same names up to the end of the first credential prefix of one end it at the same place |
| RedactionReadings.FirstEndIsRead | src/utils/logger.py:188-226 | the end redaction goes by is the first segment that says `join`, or `invitations` behind `v1` behind `api` with nothing but empty and `.` segments between, each in any case and with any parameters; there is none if and only if no segment is such |
| RedactionReadings.ShownUpToItsPrefix | src/utils/logger.py:198-229 | a path with no such segment is shown whole; any other is shown up to the last word of its first prefix, and unless the rest is only slashes one mark stands for it |
| RedactionReadings.TokenIsMasked | src/utils/logger.py:198-229 | behind any front with no prefix in it, `/join/` and `/api/v1/invitations/` are followed by the mark alone, whatever token and more stood there |
| RedactionLaws.QuickTestIsSound | src/utils/logger.py:215-217 | the quick test for a prefix's last word turns away no path that holds a prefix |
| RedactionLaws.RedactedIsItsHead | src/utils/logger.py:198-229 | a path without a prefix, or with only slashes after it, is unchanged; any other becomes its head and the mark |
| RedactionLaws.RedactionForgetsTheTail | src/utils/logger.py:198-229 | whatever stands behind the head, parameters, empty segments and all, comes out the same |
| RedactionLaws.RedactingTwiceIsOnce | src/utils/logger.py:198-229 | redacting a path twice is redacting it once |
| RedactionLaws.TargetForgetsTheQuery | src/utils/logger.py:232-242 | a target's query is replaced whole |
| RedactionLaws.RedactingATargetTwiceIsOnce | src/utils/logger.py:232-242 | redacting a target twice is redacting it once |
| DbUrl.Utf8RoundTrip | src/config/db_url.py:66-69 | every text's UTF-8 bytes read back as that text |
| DbUrl.PercentRoundTrip | src/config/db_url.py:66-69 | percent-decoding what was encoded gives the bytes back |
| DbUrl.UrlRoundTrip | scripts/app_db_url.py:46-51 | for all five fields, the URL cut at its delimiters and decoded gives the fields exactly, empty ones included |
| DbUrl.PlainUrl | scripts/app_db_url.py:46-51 | fields of letters, digits and `_.-~` stand in the URL as they are, in their places, with no user part where both are empty |
| DbUrl.UrlIsNeverAmbiguous | src/config/db_url.py:101-122 | the URL of any five fields is never ambiguous |
| DbUrl.AmbiguousIsTwoAts | src/config/db_url.py:101-122 | a URL is ambiguous if and only if two `@` stand behind its first `://` |

## Left out

- SQL itself: statements, probes and postconditions are opaque steps that succeed or fail, checksums are opaque values,
  and a wrapped file is assumed to hold no transaction control, since the mode is read from a bare `BEGIN` alone.
- Marker parsing and file discovery: migrations come parsed, with versions unique and sorted.
- The archive-backup confirmation of `apply` and the reason text of a repair beyond its being empty or not.
- The columns of a retired ledger's rows beyond version, checksum and status, which conversion also looks through for file
  names, and the ownership and layout of the table.
- Which host is pooled: a flag; the check of the host's name is not modelled.
- Lock tries are bounded for a clock that every sleep moves by at least its argument; a clock that stands still is not.
- The runners' interleaving works on what each transaction does to the ledger and the retired table; the statements of
  the migrations and the transcripts are in the single-run model only.
- RunnerHistories.HistoryIsShown: says what was asked and answered in the run, not that an answer still held when the row
  was committed.
- RunnerEffects.HistoryRunsOnce: says exactly-once for wrapped files alone; a file that manages its own transactions, or
  uses none, may leave part of its work behind on failure, as `Outcomes.PartOf` says.
- RunnerProgress.FailedRunIsAPrefix: for the same reason asks that the plan's files are wrapped for the effects, not for the
  ledger.
- NormalizerLaws.CommentsDoNotCount: one way only. With an escape string carried over a line break it can fail, as
  `NormalizerLimits.MovedCommentsCount` shows, and can still hold by accident of what the strings contain.
- LayoutLaws.LayoutDoesNotCount: for settled files; of others, whose quotes move, layout is part of what moves them.
- Message wording: the monitor's messages are a datatype with one constructor a sentence; verdicts carry no detail text.
- The delivery endpoint's classifier: its state is an input of a poll.
- A state file edited by hand: it is what a poll wrote, or nothing.
- MonitorTiming.HeardInTime: for runs in which the trouble has lasted throughout; delivery readings held while the API is
  down break a run, as they do in the code.
- Times are reals; float rounding is not modelled.
- Lower- and upper-casing of letters outside ASCII that do not become ASCII: no comparison here sees it.
- Redaction in application log lines of routed requests, and the loggers it is installed in.
- Watch.Run: the reads are a given sequence of turns, and running out of them stands for Ctrl-C; an interrupt between the
  print and the judgement of a reading is not modelled, nor is printing itself.
- BodyLimit.OneResponseStart: two overlapping receives or two overlapping sends, which no application here makes, are not
  modelled, nor is what the middleware does with the application's own disconnect error.
- Content-Length parsing: the declared length is given as a number or nothing.
- Text that cannot be encoded as UTF-8: characters are Unicode scalar values.
- The pull-request rule and the command line around the fold, and reading and writing its files.
- Everything else in the repository: the service, its channels and routes, the schema tools, the landing site.
