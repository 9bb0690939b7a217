# Verified models of the construction core

This project models, in Dafny, five cores of the repository and proves what they promise over unbounded inputs, runs and interleavings:

- the migration runner: a hand-written SQL lexer, the statement splitter and body hider above it, the taint carried along a chain of migrations, and the ledger planner (`SqlLexer`, `SqlScanner`, `MigrationChain`, `MigrationLedger`);
- the production schedule: civil dates, the exact delay, the revision diff, the predecessor check and the draft, approve and supersede machine (`CivilDate`, `ScheduleStatus`, `ScheduleDiff`, `PredecessorCycle`, `ScheduleDrafts`), with the technological order of works beside it (`WorkDependencies`);
- the concurrency protocols: the coordination lock over pooled clients and the two command ledgers (`Coordination`, `CommandLedger`);
- the allocation of a work's quantity (`Allocation`);
- documentation packages, closing cases and acts of hidden works (`DocumentationModel`, `DocumentationInvariants`, `DocumentationProtocol`, `DocumentationRefusals`, `DocumentationService`, `Aosr`, and packages with their acts together in `PackageActs`).

Code that changes state is modelled by a class whose fields are the tables, with one method per operation, or by a method with the loops of the source. Each is proved against a specification function, and the results are lemmas about that function: invariants of every reachable state, exact conditions, round trips and refinements. The lock and the ledgers are state machines whose steps interleave freely.

How to read it:

- SQL tables are maps, sets and sequences; an operation that runs in one transaction is one atomic step, and a refused or aborted one changes nothing. Operations on the same rows are serial, as the row locks make them.
- Identifiers drawn by the database are parameters; drawing one that exists is an error result.
- Quantities and amounts are whole ten-thousandths. Percentages and the delay are exact reals. Input of a customer quantity is a real, rounded half away from zero to four places before it is checked and stored.
- The day number follows section 21.4.1 of ECMA-262.
- Text is a sequence of Unicode scalar values where the source language has UTF-16 units; a character outside the basic plane is two such units, and an identifier character either way.
- `Wrappers` holds the optional values and results, `Text` the order of strings and the digits they share.
- Rights are not modelled: an operation a caller may not run changes nothing. The command ledger is the exception, since the order of its checks is the point.

Where the code and its own description differ, the model follows the code:

- Reported and granted coordination locks differ in two short windows: the lock is granted but not yet remembered (or never, when the transaction fails there), and the transaction has ended but its client is not yet unmarked. `Coordination.HeldIsGranted` names them and `Coordination.BothWindowsHappen` shows them.
- Migration files are read in the order of their names, not of their versions. The ledger grows upwards exactly when every run applies its files in the order of versions (`MigrationLedger.RunsIncreaseExactly`), as it does when all versions have one number of digits (`MigrationLedger.RunsAppend`); `MigrationLedger.NameOrderIsNotVersionOrder` is a directory with 100 before 99 that breaks it.
- The chain takes overloads of one name for one routine and calls that an over-approximation. It is not always one: a clean overload of an armed routine makes the chain forget the armed one, and a later additive file may then mention the name (`MigrationChain.OverloadUnarms`). `MigrationChain.RemembersExactly` says exactly when nothing is forgotten.
- Day numbers are defined for strings in the format even when the month or the day does not exist; only the civil-date test refuses them.

## Model

| member | source | states |
|---|---|---|
| SqlLexer.PiecesTileInput | scripts/migration-runner.ts:82-166 | Lexing is lossless: for every input the pieces, comments included, laid end to end are the input itself. |
| SqlLexer.SegmentsHoldVisibleText | scripts/migration-runner.ts:82-166 | The segment texts joined are the input with every closed comment turned into one blank and nothing else changed (an unclosed block comment stays visible without its opener). |
| SqlLexer.UnterminatedTailStaysVisible | scripts/migration-runner.ts:108-112 | A comment that is never closed hides nothing: what follows its opener ends the text that is scanned. |
| SqlLexer.NoProblemMeansClosed | scripts/migration-runner.ts:108-113 | When the lexer reports no problem, every segment is closed. |
| SqlLexer.BlockCommentEndsAtDepthZero | scripts/migration-runner.ts:99-118 | A block comment ends exactly where its nesting depth first returns to zero, and is reported unterminated exactly when the depth never does. |
| SqlLexer.CommentRemovalIsFixedPoint | scripts/migration-runner.ts:82-166 | For every problem-free input, lexing the joined segment texts again gives the same segments, finds no comment and reports no problem. |
| SqlLexer.QuotedValueIsOneLiteral | scripts/migration-runner.ts:119-142 | Any value written with doubled quotes (or backslash escapes after an E prefix) is read back as exactly one closed literal, exactly when the text after it does not begin with the same quote. |
| SqlLexer.DollarBodyIsOneLiteral | scripts/migration-runner.ts:143-158 | A body wrapped in a dollar quote, with a tag of any length, whose text does not complete the opener early is read back as exactly one closed dollar literal. |
| SqlLexer.LineCommentExactly | scripts/migration-runner.ts:91-98 | A comment after two dashes is exactly the text up to the first line feed or carriage return, which stays code, or to the end. |
| SqlLexer.DollarQuoteExactly | scripts/migration-runner.ts:143-158 | A dollar quote ends where its opener first stands again and is unclosed exactly when it never does; it is ambiguous exactly after a character of a name. |
| SqlLexer.CodeCharExactly | scripts/migration-runner.ts:88-162 | A character stands alone in code exactly when no comment, quote or dollar quote starts at it. |
| SqlLexer.ProblemsExactly | scripts/migration-runner.ts:108-158 | Each problem is reported exactly when some piece has it. |
| SqlLexer.BlockCommentEnd | scripts/migration-runner.ts:99-118 | The depth-counting loop stops where the specification of the comment end says, with depth zero exactly when there is such an end. |
| SqlLexer.LiteralEnd | scripts/migration-runner.ts:119-137 | The quote loop, with its escape and doubled-quote skips, stops at the specified end and says whether the literal is closed. |
| SqlLexer.LexSql | scripts/migration-runner.ts:82-166 | The loop with its code buffer returns exactly the segments and problems of the piece-by-piece specification. |
| SqlScanner.SplitJoin | scripts/migration-runner.ts:683-709 | Joining texts that hold no semicolon and splitting the result at semicolons gives the texts back. |
| SqlScanner.StatementsPartitionText | scripts/migration-runner.ts:680-690 | The statements joined with semicolons are the comment-stripped text: only top-level semicolons separate, and nothing is lost. |
| SqlScanner.ScannedTextHidesNothingElse | scripts/migration-runner.ts:676-709 | Splitting the scanned text gives one piece per top-level statement; each piece is that statement with literal semicolons blanked, except for the first closed AS body of a CREATE FUNCTION or a whole standalone DROP NOT NULL. |
| SqlScanner.OnlyBodyHidden | scripts/migration-runner.ts:693-707 | The one segment hidden from a statement, if any, is the first closed AS body of a CREATE FUNCTION. |
| SqlScanner.BlankedKeepsText | scripts/migration-runner.ts:691-704 | With nothing hidden the scanned text has the length of the statement and differs from it only where a literal holds a semicolon. |
| SqlScanner.DropNotNullWordByWord | scripts/migration-runner.ts:706-707 | The exempted statement is exactly the nine words ALTER TABLE name ALTER COLUMN name DROP NOT NULL with nothing after them. |
| SqlScanner.FunctionHeadWordByWord | scripts/migration-runner.ts:168 | The head pattern accepts exactly CREATE, or CREATE OR REPLACE, followed by FUNCTION as a whole word. |
| SqlScanner.AsWordByWord | scripts/migration-runner.ts:169 | The text before a body that may be hidden ends with AS as a whole word, in either case, and blanks only after it. |
| SqlScanner.CharactersExactly | scripts/migration-runner.ts:168-169 | The blanks, the characters of a word and the upper case of the letters, listed. |
| SqlScanner.SplitStatements | scripts/migration-runner.ts:680-690 | The splitting loop builds exactly the specified statements. |
| SqlScanner.ScanStatement | scripts/migration-runner.ts:692-708 | The body-hiding walk over one statement returns the specified text. |
| SqlScanner.ScanText | scripts/migration-runner.ts:676-719 | The scan of the text: its statements, which do not depend on whether bodies are hidden, the text the destructive scan reads, and the problems of the lexer. |
| MigrationChain.TaintExact | scripts/migration-runner.ts:558-569 | A name is tainted exactly when a path of recorded mentions leads from it to a seed. |
| MigrationChain.TaintIsLeast | scripts/migration-runner.ts:558-569 | The taint is the least set holding the seeds and closed under being mentioned. |
| MigrationChain.NonRoutineNeverShrinksTaint | scripts/migration-runner.ts:489-548 | Absorbing any statement that defines no routine never removes a name from the taint, whatever the seeds. |
| MigrationChain.RoutineCanShrinkTaint | scripts/migration-runner.ts:509-531 | A concrete redefinition of a routine that removes a name from the taint, so the previous result needs its condition. |
| MigrationChain.AcceptedStatementIsHarmless | scripts/migration-runner.ts:576-664 | A statement draws no finding exactly when no non-exempt mention reaches an armed function and nothing it writes or calls reaches an upsert trigger function, by the definitions live just before it. |
| MigrationChain.AcceptedFileIsSafe | scripts/migration-runner.ts:621-673 | An additive file is accepted exactly when each statement is harmless where it stands and, afterwards, no event trigger function or implicitly bound name reaches an armed function. |
| MigrationChain.AcceptedStatementSpreadsNothing | scripts/migration-runner.ts:634-664 | An accepted statement that defines no routine and binds no trigger leaves the taint exactly as it was. |
| MigrationChain.ExcusedExactly | scripts/migration-runner.ts:629-661 | What a statement mentions beyond its excuses, kind by kind: a grant nothing, a routine its head less its own name once, a trigger its text less its function and its table once each, any other all its names. |
| MigrationChain.OwnExactly | scripts/migration-runner.ts:630-633 | A call is excused once for the routine the statement defines or binds, and never otherwise. |
| MigrationChain.MentionsAreLive | scripts/migration-runner.ts:489-548 | After any history of statements the chain records exactly the mentions of live definitions: those whose name no later routine defines again. |
| MigrationChain.DangersAreLive | scripts/migration-runner.ts:506-531 | After any history the armed and the upserting routines are exactly those whose live definition is. |
| MigrationChain.ReachIsLive | scripts/migration-runner.ts:558-569 | What the chain can reach is exactly what a path of live mentions to a live dangerous definition reaches. |
| MigrationChain.AcceptedChainIsSafe | scripts/migration-runner.ts:750-757 | Over any chain of files, read off its statements alone: a file draws no finding exactly when no statement of it evaluates a name that reaches an armed or upserting routine through the definitions live just before it, and nothing hidden reaches an armed one at its end. |
| MigrationChain.ScanIsExact | scripts/migration-runner.ts:750-757 | The findings of a scanned chain, each exactly where due: a file that is not additive has none, an additive one has none exactly when each of its statements is safe where it stands and nothing hidden reaches an armed routine at its end. |
| MigrationChain.ArmedStaysRefused | scripts/migration-runner.ts:621-664 | A routine armed by any earlier statement, of any file and class, and not defined again since, refuses every file with a non-exempt mention that reaches it. |
| MigrationChain.RemembersExactly | scripts/migration-runner.ts:506-531 | The chain keeps every unflagged statement off the routines ever armed exactly when each replaced definition that was armed, or mentions a name tainted now, belongs to a name that is tainted still. |
| MigrationChain.OverloadUnarms | scripts/migration-runner.ts:431-432 | A concrete chain of three files in which that fails: a clean overload un-arms its name and the last additive file mentions it with no finding. |
| MigrationChain.RemoveEach | scripts/migration-runner.ts:653-658 | Each exempt name excuses one occurrence only. |
| MigrationChain.CheckCalls | scripts/migration-runner.ts:594-600 | The call check with its list of names to skip once reports exactly the calls beyond the exempt ones. |
| MigrationChain.DefinitionChain.Clone | scripts/migration-runner.ts:454-457 | The copy equals the original and shares no set object with it. |
| MigrationChain.DefinitionChain.AbsorbStatements | scripts/migration-runner.ts:489-548 | The in-place updates of the nested maps and sets give exactly the absorbed chain. |
| MigrationChain.DefinitionChain.TaintedFrom | scripts/migration-runner.ts:558-569 | The loop over passes terminates with exactly the taint. |
| MigrationChain.DefinitionChain.ChainViolations | scripts/migration-runner.ts:621-673 | The findings are those of the walk, and the caller's chain is unchanged. |
| MigrationChain.DefinitionChain.WalkFile | scripts/migration-runner.ts:621-664 | The walked copy ends equal to the chain after simply absorbing the file. |
| MigrationChain.ScanMigrationChain | scripts/migration-runner.ts:750-757 | The scan with its one absorbing chain gives each additive file exactly the findings due by its own statements and everything before it, and other files none. |
| MigrationLedger.PlanAcceptedExactly | scripts/migration-runner.ts:813-851 | A plan is accepted exactly when no recorded file was edited and every due file, one not recorded and not beyond the version to stop at, is newer than the ledger and no forbidden contract. |
| MigrationLedger.RefusalNamesItsFile | scripts/migration-runner.ts:818-849 | Every refusal names a file it is true of: an edited file comes first, then a gap, then a contract at start-up or one that was not named. |
| MigrationLedger.UnverifiedExactly | scripts/migration-runner.ts:821-832 | A version is reported as unverified exactly when a file has it and its row holds no checksum. |
| MigrationLedger.RunExactly | scripts/migration-runner.ts:865-877 | A run goes through exactly when its plan is accepted and the database takes every due file; otherwise the ledger stays as it was. |
| MigrationLedger.RunAddsExactly | scripts/migration-runner.ts:836-875 | A run that goes through adds exactly the due files: each new row is that of one, no new version exceeds the one to stop at, and every file of the directory not beyond it is recorded afterwards. |
| MigrationLedger.RunAddsInOrder | scripts/migration-runner.ts:871-875 | New rows stand in the order of their files. |
| MigrationLedger.RunsIncreaseExactly | scripts/migration-runner.ts:865-877 | Over any sequence of runs the ledger only grows, and every added version exceeds all before it exactly when each successful run applies its pending files in the order of versions. |
| MigrationLedger.RunsAppend | scripts/migration-runner.ts:762-877 | It does over any runs of directories that the reader accepts and whose versions have one number of digits, since their name order is the order of versions. |
| MigrationLedger.NamedExactly | scripts/migration-runner.ts:762-763 | The names the reader takes: digits, an underscore, anything and the ending .sql; the version is the number the digits make. |
| MigrationLedger.NameOrderIsNotVersionOrder | scripts/migration-runner.ts:762-798 | A directory the reader accepts, sorted by name with version 100 before 99, both additive, whose run succeeds and leaves the ledger not increasing. |
| MigrationLedger.SomeRunAdded | scripts/migration-runner.ts:869-875 | Every row beyond the first ledger was added by one of the runs. |
| MigrationLedger.EveryRowJustified | scripts/migration-runner.ts:842-849 | The run that added a row had a file with its version, checksum, name and class, and when the row is a contract that very run named it and was not a start-up. |
| MigrationLedger.EditedFileRefused | scripts/migration-runner.ts:818-835 | Once a row holds a checksum, a file with that version and another checksum is refused in every later state and changes nothing. |
| MigrationLedger.ImmediateRerunIsEmpty | scripts/migration-runner.ts:836 | After a successful run the same files, each version once, leave nothing pending. |
| MigrationLedger.DecidePlan | scripts/migration-runner.ts:813-851 | The planner with its accumulated list returns the specified plan or the first error. |
| MigrationLedger.Database.ApplyMigrations | scripts/migration-runner.ts:865-877 | Planning, executing and recording file by file inside a transaction gives the specified ledger; a failing file leaves it as it was. |
| CivilDate.NextDayIsOneMore | packages/domain/schedule.ts:43-50 | The calendar successor of a date has the next day number. |
| CivilDate.Epoch | packages/domain/schedule.ts:39 | Day 0 is 1970-01-01. |
| CivilDate.MonthCarries | packages/domain/schedule.ts:47-48 | A month outside 1 to 12 carries into the year, as setUTCFullYear does. |
| CivilDate.DayCarries | packages/domain/schedule.ts:47-48 | A day past the end of the month carries into the next month. |
| CivilDate.CivilDatesAreTheCalendar | packages/domain/schedule.ts:31-36 | Reading and printing the string back accepts exactly the dates of the proleptic Gregorian calendar, years 0000 to 9999. |
| CivilDate.StringOrderIsDayOrder | apps/backend/src/early-work.ts:21 | On civil dates the order of strings is the order of days. |
| CivilDate.DayNumberRoundTrip | packages/domain/schedule.ts:43-50 | Converting the day number back gives the same string, and every day of the range is the number of a civil date. |
| CivilDate.ScheduleRangeExactly | packages/domain/schedule.ts:60-65 | The schedule takes exactly the civil dates from 2000-01-01 to 2100-12-31, by the order of strings. |
| ScheduleStatus.DelayRefinesPlan | packages/domain/schedule.ts:206-233 | The delay is the largest number of whole days by which one can go back and still find the linear plan at the share done; 0 if none. |
| ScheduleStatus.DelayedSince | packages/domain/schedule.ts:206-233 | On date strings: a reported delay is counted from a date of the calendar, not before the planned start and before today, on which the plan is at the share done. |
| ScheduleStatus.NoEarlierDate | packages/domain/schedule.ts:206-233 | On date strings: no date up to today on which the plan is at the share done lies further back than the reported delay. |
| ScheduleStatus.PositiveDelayGrows | packages/domain/schedule.ts:224-231 | A day later a positive delay is exactly one day longer. |
| ScheduleStatus.NextDayOneMore | packages/domain/schedule.ts:224-226 | So does an exact lag shorter than a day. |
| ScheduleStatus.MoreFactNoMoreDelay | packages/domain/schedule.ts:224-226 | Reporting more never raises the delay. |
| ScheduleStatus.DelayBounds | packages/domain/schedule.ts:192-202 | Nothing done: the delay is the days since the start. Unfinished after the finish date: at least the days since the finish. |
| ScheduleStatus.StatesExact | packages/domain/schedule.ts:221-233 | Each of the four states exactly on its condition on the fact, the plan of the day before and the start. |
| ScheduleStatus.DerivedByDates | packages/domain/schedule.ts:206-218 | On date strings: the status is that of the three day numbers, and the phase is where the order of the dates puts today. |
| ScheduleStatus.StatusFieldsExact | packages/domain/schedule.ts:183-234 | Phase, reliability, overperformance and the kind of a delay, each value exactly on its own condition; a delay of no days has no kind. |
| ScheduleStatus.ActualProgressExact | packages/domain/schedule.ts:217 | The share done, in percent, is exact between nothing and all and kept at the bounds outside. |
| ScheduleStatus.PlannedProgressExact | packages/domain/schedule.ts:174-181 | The linear plan: 0 before the start, 100 from the finish on, and exactly the share of the days gone in between. |
| ScheduleDiff.DiffExact | packages/domain/schedule.ts:332-347 | The diff holds a change exactly for each item that differs, and the change says how. |
| ScheduleDiff.ChangesOnce | packages/domain/schedule.ts:332-347 | No change is in the diff twice. |
| ScheduleDiff.DiffStrictlyOrdered | packages/domain/schedule.ts:348-349 | The shown order by sequence, start and item is strict, so it does not depend on how the sort treats equals. |
| ScheduleDiff.PatchOfDiff | packages/domain/schedule.ts:332-350 | Applying the diff to the earlier entries gives the later ones. |
| ScheduleDiff.DiffSwapped | packages/domain/schedule.ts:332-350 | Swapping the arguments gives exactly the inverse changes, which undo the diff. |
| ScheduleDiff.DiffEmptyExactly | packages/domain/schedule.ts:332-350 | The diff is empty exactly when the two revisions are the same map. |
| ScheduleDiff.SortChanges | packages/domain/schedule.ts:348-349 | The shown order is a permutation ordered by sequence, start and item. |
| ScheduleDiff.DiffScheduleEntries | packages/domain/schedule.ts:332-350 | The pushing loops and the sort give the specified diff. |
| PredecessorCycle.HasPredecessorCycle | packages/domain/schedule.ts:383-394 | The walk with a seen set terminates and answers true exactly when the references have a cycle. |
| PredecessorCycle.FollowsExactly | packages/domain/schedule.ts:384-387 | A walk goes from one item to another exactly by the last reference given for the item, and ends where that is missing, null or empty. |
| PredecessorCycle.EndedWalkIsOffCycles | packages/domain/schedule.ts:387-392 | A walk that ends did not start on a cycle. |
| PredecessorCycle.NewItemNoCycle | apps/backend/src/schedule-service.ts:357-361 | An item nothing follows yet closes no cycle, which is why adding an entry needs no cycle check. |
| ScheduleDrafts.ReachableSchedulesAreGood | apps/backend/src/schedule-service.ts:310-466 | In every reachable schedule each revision has distinct items, predecessors inside, no cycle and no work at both levels; at most one draft and one approved revision exist. |
| ScheduleDrafts.ReachableDatesAreGood | packages/domain/schedule.ts:370-374 | In every reachable schedule all planned dates are in range and in order. |
| ScheduleDrafts.FrozenForever | packages/domain/schedule.ts:83-94 | Over any run, the entries of an approved, superseded or discarded revision never change and its status follows the allow-list. |
| ScheduleDrafts.RoutesExactly | packages/domain/schedule.ts:83-94 | The three status moves of a revision, listed, and no others. |
| ScheduleDrafts.ReachableApprovalProblems | packages/domain/schedule.ts:418-438 | In a reachable state only emptiness, missing changes, a missing reason and units that appeared can stand against approval. |
| ScheduleDrafts.ApprovalExact | apps/backend/src/schedule-service.ts:438-466 | Exactly when a reachable draft is approved. |
| ScheduleDrafts.UntouchedCopyRefused | apps/backend/src/schedule-service.ts:310-326 | An unedited copy of the baseline is never approved. |
| ScheduleDrafts.ApprovalEffect | apps/backend/src/schedule-service.ts:438-466 | Approval makes the draft's entries the baseline, leaves no draft and supersedes the revision it replaces. |
| ScheduleDrafts.ApprovalMoves | apps/backend/src/schedule-service.ts:438-466 | What approval leaves of each revision: the draft is approved and the baseline superseded, each one version on, the reason is kept only for a correction, and nothing else changes. |
| ScheduleDrafts.WorksScheduledAtBothLevels | packages/domain/schedule.ts:377-380 | The works returned are exactly those planned both whole and in parts. |
| ScheduleDrafts.ApprovalViolations | packages/domain/schedule.ts:418-438 | The problems, pushed one by one, in the order the source reports them. |
| ScheduleDrafts.ProblemsExactly | packages/domain/schedule.ts:418-438 | A problem is reported exactly when it stands against the entries, each once, in the order of the checks. |
| ScheduleDrafts.CreatedDraftIsCopy | apps/backend/src/schedule-service.ts:310-326 | A draft is opened exactly when there is none; it shows no change against the baseline, which stays, as does every earlier revision; without a baseline it is empty. |
| ScheduleDrafts.CreationMoves | apps/backend/src/schedule-service.ts:310-326 | A new draft is the last revision, based on the baseline, with its entries in their order and new numbers for its lines. |
| ScheduleDrafts.EntriesAcceptedExactly | apps/backend/src/schedule-service.ts:328-426 | Exactly when an entry is added, edited or removed and a draft given up in a reachable schedule, from dates, scopes, references and versions read off the revisions. |
| ScheduleDrafts.EntriesRefusedBecause | apps/backend/src/schedule-service.ts:328-412 | In every reachable schedule each refusal of adding, editing or removing an entry names a reason that is true of the draft and the command. |
| ScheduleDrafts.DraftRefusedBecause | apps/backend/src/schedule-service.ts:310-466 | So does each refusal of opening, discarding or approving a draft; approval is refused with exactly the problems that stand. |
| ScheduleDrafts.AddedAsAsked | apps/backend/src/schedule-service.ts:328-368 | An accepted addition puts one line at the end of the draft with the dates, reference and sequence asked for, on the one item of its scope, and changes nothing else. |
| ScheduleDrafts.EditTakesNamedFields | apps/backend/src/schedule-service.ts:370-397 | An accepted edit gives each field named its new value and keeps every other, in the one line of that number and version; nothing else moves but the version of the draft. |
| ScheduleDrafts.ScheduleService.AddEntry | apps/backend/src/schedule-service.ts:328-368 | The new state and every refusal of adding an entry. |
| ScheduleDrafts.ScheduleService.EditEntry | apps/backend/src/schedule-service.ts:370-397 | The new state and every refusal of editing an entry, cycle check included. |
| ScheduleDrafts.AddThenRemove | apps/backend/src/schedule-service.ts:328-412 | In every reachable schedule removing the entry that was just added is accepted, since nothing can follow it yet, and brings back every revision; only the version of the draft tells. |
| ScheduleDrafts.DiscardLeavesBaseline | apps/backend/src/schedule-service.ts:414-426 | Discarding gives up the draft alone: its entries, the baseline and every other revision stay, and a new draft can be opened at once. |
| ScheduleDrafts.DiscardMoves | apps/backend/src/schedule-service.ts:414-426 | What discarding leaves of each revision: the draft is discarded, one version on, and every other stays as it is. |
| ScheduleDrafts.ScheduleService.ApproveDraft | apps/backend/src/schedule-service.ts:438-466 | The new state and every refusal of approving a draft. |
| WorkDependencies.ChainFrom | apps/backend/src/service.ts:101 | The recursive query, level by level, gives exactly the works that come after a work. |
| WorkDependencies.CycleCheckExact | apps/backend/src/service.ts:101 | On an acyclic graph the check refuses an edge exactly when the edge would close a cycle. |
| WorkDependencies.ReachableGraphsAreAcyclic | apps/backend/src/service.ts:101 | In every reachable state the dependency graph is acyclic and stays within objects. |
| WorkDependencies.TakenExactly | apps/backend/src/service.ts:101 | After any requests a dependency is taken exactly when both works are known and of one object, the successor may still get one, and the edge is new and closes no cycle. |
| WorkDependencies.RequestAddsItsEdge | apps/backend/src/service.ts:101 | A taken request adds its own edge and a refused one nothing; each refusal exactly on its own condition, by rank. |
| WorkDependencies.DependencyStore.Dependency | apps/backend/src/service.ts:101 | The operation with its refusals: unknown work, different objects, started, cycle, repeated edge. |
| Coordination.ExclusiveExcludes | apps/backend/src/coordination-lock.ts:92-94 | Over every interleaving an exclusive holder excludes every other holder of its key. |
| Coordination.ReportedExclusiveExcludes | apps/backend/src/coordination-lock.ts:52-59 | What the process reports for live transactions excludes in the same way. |
| Coordination.HeldIsGranted | apps/backend/src/coordination-lock.ts:73-103 | The reported lock is the granted one exactly unless a grant was not remembered (not yet, or because the transaction failed first) or the transaction has ended with its client still marked; in the first case a lock is granted and none reported, in the second none is granted. |
| Coordination.AnswersAreExact | apps/backend/src/coordination-lock.ts:73-85 | In every reachable state a running transaction gets a new lock exactly when it owns none; it is told it has the lock exactly when it owns the key in a mode that covers the one asked, that an upgrade is forbidden exactly when it owns the key shared and asks for it exclusive, and that the object is another exactly when it owns another key. |
| Coordination.LateRequestIsRefused | apps/backend/src/coordination-lock.ts:86-88 | A transaction that already has an id never waits for the lock and gets none. |
| Coordination.GrantedExactly | apps/backend/src/coordination-lock.ts:92-94 | A waiter is let in exactly when nobody else holds the key, or everybody who does holds it shared and so is it asked for. |
| Coordination.RowIsTakenOrAwaited | apps/backend/src/coordination-lock.ts:15-19 | Taking a row gives it with a transaction id or makes the client wait for its owner, until it is free. |
| Coordination.EndGivesBack | apps/backend/src/coordination-lock.ts:24-25 | Commit and rollback give back exactly the locks and rows of their own transaction and leave the process its entry. |
| Coordination.FailedAndUnmarked | apps/backend/src/db.ts:31-53 | A step may fail at any point of a transaction, and an ended one leaves its client without a token and ready for the next. |
| Coordination.BothWindowsHappen | apps/backend/src/coordination-lock.ts:93-101 | A concrete interleaving in which both windows are open at once. |
| Coordination.StaleEntryIgnored | apps/backend/src/db.ts:31-53 | A new transaction on a reused client starts with nothing reported, whatever an earlier one left. |
| Coordination.WaiterHoldsNothing | apps/backend/src/coordination-lock.ts:86-94 | A transaction waiting for the lock holds no row lock and no other coordination lock. |
| Coordination.NoWaitCycleThroughLock | apps/backend/src/coordination-lock.ts:15-24 | No cycle of waiting, over lock, rows and queue, passes through a transaction that waits for the lock. |
| CommandLedger.AtMostOneExecution | apps/backend/src/command-ledger.ts:65-88 | Over every interleaving with commits and aborts a key has at most one committed execution. |
| CommandLedger.AnswersComeFromTheExecution | apps/backend/src/command-ledger.ts:54-62 | Every committed answer for a key is the result of its one execution, whose request had the same fingerprint, or the same actor, scope and payload. |
| CommandLedger.OtherRequestExecutesNothing | apps/backend/src/security.ts:123-140 | On a committed key another actor, and another fingerprint, scope or payload, is refused with its own reason and executes nothing. |
| CommandLedger.SameRequestIsReplayed | apps/backend/src/command-ledger.ts:74-82 | On a committed key the same request is answered with the stored result and executes nothing. |
| CommandLedger.CompareExactly | apps/backend/src/command-ledger.ts:54-57 | The verdict on two requests: the same, another actor, or other data, in this order and in the words of their fingerprints, actors, scopes and payloads. |
| CommandLedger.LookupExactly | apps/backend/src/command-ledger.ts:96-101 | What the look-up tells, by the committed executions alone: nothing exactly when the key has none, the result to the same request, a refusal to any other. |
| CommandLedger.RowIsTheExecution | apps/backend/src/command-ledger.ts:76-86 | In every reachable state the row of a key that was executed holds the data of that execution, without its undefined values, and its result. |
| CommandLedger.NewCommandExecutes | apps/backend/src/command-ledger.ts:65-88 | Under a free key, or none, an authorised command executes once and commits its effect and its answer. |
| CommandLedger.RepeatedCommandIsAnswered | apps/backend/src/command-ledger.ts:77-82 | In every reachable state a repeated command commits the stored result and nothing else. |
| CommandLedger.UnauthorisedIsTurnedAway | apps/backend/src/command-ledger.ts:66-67 | A caller without the right is turned away before anything of the ledger is looked at. |
| CommandLedger.LookupNeverContradicted | apps/backend/src/command-ledger.ts:96-101 | A look-up that found something is never contradicted by a later claim of the same command. |
| CommandLedger.AbortFreesTheKey | apps/backend/src/command-ledger.ts:16-18 | A claim blocks on an unfinished one and takes the key when that one aborts. |
| CommandLedger.AuthorisedFirst | apps/backend/src/command-ledger.ts:65-88 | In every run each call's rights are checked before its claim, replay or execution. |
| CommandLedger.PayloadEquals | apps/backend/src/security.ts:116-122 | The key-by-key comparison decides equality of payloads in which a missing and an undefined value are the same. |
| CommandLedger.SameIsEquivalence | apps/backend/src/security.ts:127-139 | The comparison is an equivalence and does not see that undefined values are not stored. |
| Allocation.AcceptedExactly | apps/backend/src/gpr2-r06b-allocation.ts:41-111 | Exactly when a replacement is accepted, down to each unit and portion: known and owned, in the measure, within its plan, named once, not below what is confirmed, portions within units, units within the work, and what is stored for each portion, named or omitted, covers everything confirmed for it; the order of checks does not matter. |
| Allocation.RefusedBecause | apps/backend/src/gpr2-r06b-allocation.ts:41-111 | Whatever is refused is refused for a reason that is true of the work, of one of its units or of one portion. |
| Allocation.AcceptedIsBounded | apps/backend/src/gpr2-r06b-allocation.ts:60-92 | What is written is within bounds and plans, and the stored quantity of each unit is the one asked for. |
| Allocation.ReadAfterWrite | apps/backend/src/gpr2-r06b-allocation.ts:133-148 | Reading a written version returns the written total, which with the unallocated rest makes the current quantity. |
| Allocation.ReadExactly | apps/backend/src/gpr2-r06b-allocation.ts:133-148 | Reading in any reachable state against any later quantity: the lines and total of the current version, the exact rest, which may be negative, and the coverage. |
| Allocation.ReplaceTakesEffect | apps/backend/src/gpr2-r06b-allocation.ts:112-131 | An accepted replacement adds one version behind the last with the lines of the input and points to it; a refused one does nothing. |
| Allocation.EveryVersionIsBounded | apps/backend/src/gpr2-r06b-allocation.ts:112-126 | In every reachable state the versions form one gap-free chain behind the pointer; in each, portions sum to at most their unit, every portion and every unit is within its plan, and units sum to at most the quantity of the work it was checked against. |
| Allocation.EvidenceFreezes | apps/backend/src/gpr2-r06b-allocation.ts:45-53 | From the first protected evidence on, pointer and versions never change. |
| Allocation.WorkStore.ReplaceWorkAllocation | apps/backend/src/gpr2-r06b-allocation.ts:15-131 | The operation with its nested loops: the new state, or the first error of the specification. |
| Allocation.WorkStore.CheckUnits | apps/backend/src/gpr2-r06b-allocation.ts:62-91 | The outer loop returns the first problem or the sum of the units. |
| DocumentationInvariants.HeldPackagesAreReady | apps/backend/src/service.ts:531-563 | In every reachable state a held package is accepted, ready and not archived; a closed case is held with a total its active allocations match. |
| DocumentationInvariants.ReadyFromHandoffToReturn | apps/backend/src/service.ts:561-597 | From handoff until the case is returned, over any run, content and acceptance stay as they were and the package stays ready. |
| DocumentationInvariants.AcceptedMeansCurrent | apps/backend/src/service.ts:492-500 | An accepted package has documents, each with a version, and the latest acceptance names exactly their current versions. |
| DocumentationInvariants.SnapshotCurrentExact | packages/domain/index.ts:434-449 | Counting and comparing decides exactly whether the snapshot is the current version of every document. |
| DocumentationInvariants.PortionsClaimedOnce | apps/backend/src/documentation-scope.ts:33-37 | No portion is ever in two active packages. |
| DocumentationInvariants.CreateExactly | apps/backend/src/documentation-scope.ts:40-47 | A new package is accepted exactly on a non-empty scope of eligible portions, which are then eligible no longer. |
| DocumentationInvariants.PositiveRowKeepsReady | packages/domain/index.ts:381-394 | A positive customer row never makes a confirmed portion unconfirmed, whatever its time. |
| DocumentationInvariants.ClosingIsNeverUnready | apps/backend/src/service.ts:642-658 | Revalidating readiness on closing never fails; a case is closed exactly from a passed check with a matching total. |
| DocumentationInvariants.ClosedCaseIsSealed | apps/backend/src/service.ts:608-658 | The figures and histories of a closed case never change: a step may name another responsible, or reopen it for correction with a reason, and it stays held. |
| DocumentationInvariants.HistoriesReplay | apps/backend/src/service.ts:667-703 | The append-only histories alone give back the total, each amount and each cancelled mark; every row names the amount held just before. |
| DocumentationInvariants.ArchiveExactly | packages/domain/package-archive.ts:38-48 | In a reachable state an early status alone decides archiving, apart from generated acts. |
| DocumentationService.ResolveCustomerScLatestGroup | packages/domain/index.ts:381-394 | A group is ready exactly when it is non-empty and positive; its quantity is known exactly when all values agree. |
| DocumentationService.LatestGroup | apps/backend/src/service.ts:533-551 | The rows of the latest group, ties included, and no others. |
| DocumentationService.CustomerConfirmed | apps/backend/src/service.ts:533-557 | Grouping and resolving decides exactly whether a portion is confirmed. |
| DocumentationService.ResolveReadiness | packages/domain/index.ts:328-345 | The pushed reasons are empty exactly when the package is ready, and each is present exactly on its own condition. |
| DocumentationInvariants.StepMoves | apps/backend/src/service.ts:373-703 | Every operation, accepted or not, moves only the package it names, and only so: content grows where it may be edited; the status follows the allow-list, the acceptance or one of two corrections; the case appears by a handoff and its figures move only while held and open; archiving needs a reason and an early status. |
| DocumentationProtocol.AcceptedExactly | apps/backend/src/service.ts:373-703 | Exactly when each operation goes through after any run, in status, version, case and content alone: what an invariant settles is not checked again. |
| DocumentationRefusals.RefusedBecause | apps/backend/src/service.ts:373-703 | After any run each refusal of an operation on packages, cases, amounts or quantities names a reason that is true of the state it was asked in. |
| DocumentationProtocol.RoutesExactly | packages/domain/index.ts:171-179 | The six status moves of a package and the six of a case, listed, and no others. |
| DocumentationProtocol.PackageChangesAsAsked | apps/backend/src/service.ts:373-500 | An accepted operation on a package achieves the content, status or mark asked for and one version more. |
| DocumentationProtocol.CaseChangesAsAsked | apps/backend/src/service.ts:589-703 | An accepted operation on a case achieves the status, total, amount or responsible asked for and changes none of the others. |
| DocumentationProtocol.HandoffHolds | apps/backend/src/service.ts:561-563 | An accepted handoff holds the package; a repeated one finds the case as it was left, one version on. |
| DocumentationProtocol.CreatedPackageIs | apps/backend/src/documentation-scope.ts:40-47 | A new package is a draft of its work with exactly the portions asked for. |
| DocumentationProtocol.ConfirmedExactly | apps/backend/src/service.ts:533-557 | A portion is confirmed exactly when it has customer rows and all those of the latest time, in one group, are positive. |
| DocumentationProtocol.QuantitiesOnlyGrow | apps/backend/src/aosr-service.ts:415-443 | Quantities are only ever added, at the end, by recordings and inspections, each the nearest ten-thousandth of its input. |
| DocumentationProtocol.LinkExactly | apps/backend/src/service.ts:410 | A portion can be linked exactly to an unarchived package whose content is editable and while no active package of the work holds it; then it is eligible no longer. |
| DocumentationProtocol.NothingIsLost | apps/backend/src/service.ts:410-427 | Over any run a package never goes and loses no portion, document, version, acceptance or history row. |
| DocumentationProtocol.NewContentStalesAcceptance | apps/backend/src/service.ts:411-427 | In any reachable state a new document or version makes every earlier acceptance stale, so the package cannot be handed over before it is accepted again. |
| PackageActs.PresentedActsAreCurrent | apps/backend/src/aosr-service.ts:127-384 | With packages and acts together, over any run: from presentation until a correction begins every act of the package has a file generated at its present version, because the gate saw it so and edits, links and generations are refused. |
| PackageActs.ActsSeeThePackage | apps/backend/src/aosr-service.ts:127-384 | After any run an act is created, edited, linked, removed or generated only while its package is there, not archived, not before the customer and not held, and a generation files its version in the package with it. |
| PackageActs.PackagesSeeTheGate | apps/backend/src/service.ts:373-500 | After any run presenting and recording go by the gate over the acts there are; no other package operation looks at acts, and only generating files a generated version. |
| PackageActs.GateReadsAll | packages/domain/documentation-readiness.ts:116-128 | The gate is open exactly when it was given the package's scope, the method chosen last and every act of the package, and found nothing amiss. |
| DocumentationProtocol.AcceptedOnlyByRegistering | apps/backend/src/service.ts:492-500 | A package becomes accepted only by registering the acceptance of a presented one, and what is accepted is then the current version of each of its documents. |
| DocumentationProtocol.OneDoorOutOfAcceptance | apps/backend/src/service.ts:453-597 | Acceptance is left only for correction and by one door: before any handoff by PTO, from then on only by returning the held, unclosed case, which unlocks it. |
| DocumentationProtocol.ArchivedForever | apps/backend/src/service.ts:394 | Once archived, a package never changes again over any run, although the operations on a case do not look at the archive mark. |
| DocumentationService.ProductionService.Handoff | apps/backend/src/service.ts:561-563 | The new state and every refusal of a handoff, first or repeated. |
| DocumentationService.ProductionService.ChangeCaseStatus | apps/backend/src/service.ts:624-658 | The new state and every refusal of a case status change. |
| DocumentationService.ProductionService.MayClose | packages/domain/index.ts:455-464 | The reduction over active allocations decides exactly whether the total permits closing. |
| DocumentationProtocol.BooksMoveOnlyWhileOpen | apps/backend/src/service.ts:667-703 | Total, amounts and histories move only by the three operations on amounts, while the case is held and not closed, and the histories only grow. |
| DocumentationProtocol.SetMovesSum | apps/backend/src/service.ts:691-692 | Setting an amount moves the sum of active allocations by the difference to what the portion held; a cancelled portion held nothing. |
| DocumentationProtocol.CancelMovesSum | apps/backend/src/service.ts:703 | Cancelling takes exactly the portion's amount out of the sum. |
| DocumentationProtocol.RestoreUndoesCancel | apps/backend/src/service.ts:691-703 | Setting the old amount after cancelling brings back the sum and every held amount, and the history names it a restoration. |
| DocumentationService.ProductionService.RecordCustomerQuantity | apps/backend/src/aosr-service.ts:415-443 | The new state and every refusal of recording accepted quantities; an item outside the package undoes all. |
| DocumentationProtocol.InspectionOnlyConfirms | apps/backend/src/service.ts:121-160 | An inspection is accepted exactly when its customer quantity rounds above zero; it never takes a confirmation away, and a customer one later than all before confirms its portion. |
| Aosr.NumbersAreConsecutive | apps/backend/src/aosr-service.ts:355-366 | In every reachable state the official numbers of an object are exactly 1 to its counter, each on one act. |
| Aosr.NumbersNeverChange | apps/backend/src/aosr-service.ts:195-207 | Over any run a given number stays with its act and is never given again. |
| Aosr.ExternalHasNoActs | apps/backend/src/aosr-service.ts:127-143 | A package prepared outside has no act here. |
| Aosr.DocxStateIsHistory | packages/domain/documentation-readiness.ts:84-87 | The file is current exactly when no edit or link change followed the last generation, and not generated exactly when there was none. |
| Aosr.GateExact | packages/domain/documentation-readiness.ts:116-128 | The gate is open exactly when scope and method are chosen, a scheme has a file and, for Core, every act is current and covered. |
| Aosr.ResolvePackageReadiness | packages/domain/documentation-readiness.ts:116-128 | The reasons, pushed in the order the source checks them. |
| Aosr.MethodSwitchExactly | apps/backend/src/aosr-service.ts:127-143 | The generator can be left exactly while the package has no act and can always be come back to; a held package changes nothing. |
| Aosr.AcceptedExactly | apps/backend/src/aosr-service.ts:127-384 | Exactly when each operation goes through in a reachable state. |
| Aosr.RefusedBecause | apps/backend/src/aosr-service.ts:127-384 | Whatever is refused is refused for a reason that is true: unknown, closed, of another version, without the generator, numbered, not ready or not rendered. |
| Aosr.MethodIsAppended | apps/backend/src/aosr-service.ts:127-143 | Declaring the method in force adds nothing to the history of methods, declaring the other adds it at the end. |
| Aosr.NumberedKeepsCore | apps/backend/src/aosr-service.ts:127-207 | Over any run a package with a numbered act stays with the generator for good. |
| Aosr.CreateThenRemove | apps/backend/src/aosr-service.ts:145-207 | Removing a new act undoes its creation. |
| Aosr.EditThenGenerate | apps/backend/src/aosr-service.ts:178-384 | In any reachable state an edit or new links make a generated file outdated, and generating at the new version makes it current under the same number without moving the counter. |
| Aosr.ActMoves | apps/backend/src/aosr-service.ts:178-384 | Every step: only a generation numbers an act, only an unnumbered one without a document goes, its package never changes, and any other change is one version more by an edit, links or a generation at the version given. |
| Aosr.RemovableExactly | apps/backend/src/aosr-service.ts:196-207 | An act can be removed exactly while its content is open and it was never generated. |
| Aosr.AosrService.Generate | apps/backend/src/aosr-service.ts:355-384 | The new state and every refusal of generating; a failed render puts the counter back. |

## Left out

- The pattern catalogue of the migration runner (destructive verbs, armed words, expression checks, definition-only files): a statement enters the chain already classified, with its identifiers, write targets and calls; the order of findings is not modelled.
- Reading migration files, checksums and class headers: a file enters the planner with its version, class and checksum.
- Effects of migration SQL on the ledger table itself, and the advisory lock around a run.
- ScheduleDiff.SortChanges: starts and items are compared character by character instead of by locale, which agrees on digits, dashes and lower-case hexadecimal.
- Decimal rounding to twenty digits and floating-point percentages.
- Aggregated schedule states, delay reasons, schedule views and audit records.
- Fairness of the database's lock queue and the length of a lock timeout: a waiting step may fail at any time, and any waiter that does not conflict may be granted.
- The hash that derives a coordination key: it is an arbitrary function, so collisions are covered; resolving a reference to its object is not modelled.
- Connection loss inside a transaction, beyond a step that fails and rolls back.
- Transactions that run two ledgered commands under one key, and snapshot isolation levels.
- Row locks of the allocation, the session check and the resolver of facts: figures, ambiguity and evidence are data of the model; evidence rows are only ever added.
- The workflow of an inspection before acceptance (issues, photographs, status), and inspections of a whole work, which leave no quantity.
- The forward gate inside package operations enters `DocumentationModel` as a verdict; its own rule is in `Aosr.GateExact`, and `PackageActs` joins the two.
- SqlScanner.ScanText: the problems the catalogue adds to those of the lexer (statements after an armed definition, string settings, findings of one statement) are not modelled; their patterns are not part of this model.
- MigrationChain.ScanMigrationChain: only the findings of the chain; those of the destructive patterns and of the lexer are added to them in the source.
- Order of the latest acceptance by time stamp: acceptances are ordered by commit.
- PackageActs.PresentedActsAreCurrent: the party records of an object and the quality documents of its materials (`saveParty`, `addQualityDocument`, apps/backend/src/aosr-service.ts:310-346) may change while a package is presented and do not raise the version of an act, so the lemma does not see them.
- Readiness of an act's content, rendering, schemes' files, parties, materials and suggestions: verdicts and flags.
- Wording of messages, HTTP, validation, file storage, encryption, imports and the read model.
