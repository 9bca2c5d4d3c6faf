# bishop-memory: a verified model of its state-keeping code

bishop-memory keeps a harness's memory in Markdown files and in a service over SQLite. The
code that is hard to get right is the code that rewrites data somebody else also owns. This
project models that code in Dafny and proves what it promises.

- **The directive exporter** (`Directive*`). DIRECTIVES.md is owned by humans; the exporter
  changes one entry span or one table row at a time. A document is the sequence of lines
  between newlines. `DirectiveDoc` holds the text-level edits, `DirectiveSections` the same
  edits on a document taken apart into head, Index rows, entries and Retired rows, and
  `DirectiveRefine`/`DirectiveStep` prove that the first refine the second. On top of that:
  preservation over whole runs, exactly when a second export is quiet, retire and re-accept as
  inverses, one state per id, and a sorted Index that stays sorted. `DirectiveContent` reads the
  written document back and says of every decision what it put there, `DirectiveRefusals` when a
  run is refused, and `DirectiveForms` which lines are read as what. Well-formedness is stated
  over the lines (`DirectiveWellFormed.PassesChecks`) and proved equal to "can be taken apart".
- **The findings exporter** (`Findings*`). The ledger splits into entries in one way only; only
  rewritten entries change, and each line of theirs is accounted for (`FindingsRecord`). A second
  export is quiet when the rewritten entries have a Status line, and the exact condition for the
  others; exactly which rewritten entries keep the natural key that joins them to their row.
- **The mutation runner** (`Mutant*`). Plant and restore as a state machine with one step per
  write and per assignment that signal handling depends on. A signal or a kill may come between
  any two steps, and runs follow one another on the same tree; what the exit status tells about
  verdicts, restores and signals is proved. Beside it: the anchor search, the edit itself, and
  the check of the record, whose accepted mutants can all be planted and come in pairs.
- **Mission-id allocation** (`MissionIds`, `Allocation*`). Any number of callers
  that read the committed log up to any earlier position, and a primary key that decides between
  them.
- **The reconciler** (`Reconcile*`, `JournalPages`, `PushBatches`). Paged reading from a server
  that may answer anything, greedy batches, exact accounting under any pattern of failures,
  what a pass stores, and convergence in one pass.
- **The harness rename** (`HarnessRename`). Updates of a database one pair after another equal
  one simultaneous substitution.

Where the source loops and reassigns, the model has a method with invariants, proved equal to a
specification function or to a property stated outright; the theorems are about those functions.
The database that `rename-harness.py` changes in place is a class.

## Promises that hold only under a condition

The code is modelled as it is. Where a promise fails for some input, the condition under which
it holds is proved, in both directions, and an input that fails is given.

- `scripts/mutate.py` (lines 530-535) calls a restore safe to repeat, because it writes the same
  bytes. It opens the file for writing first, which empties it. A signal can start such a restore
  without a marker entry in two places: while `record_plant` runs, and between a restore that
  succeeded and the return of `restore_until_done`. A kill at that moment leaves a damaged file
  that no entry names (`MutantSafety.OriginalCanBeLost`). Without such a signal no original is
  ever lost, and after any such signal it can be.
- A second directive export is quiet exactly when an amended entry still fits the length limit
  with the white space at the end of its last line read as part of its Added text, and the new
  entries' dates begin with no blank (`DirectiveRepeat.RepeatIsQuietIff`). The first fails for a
  document in which that white space is a no-break space at the limit: the first export succeeds
  and the second is refused (`DirectiveRefused.SecondExportIsRefused`). The second cannot fail with
  the times the service records and the day the exporter's clock prints.
- Declining and accepting again restores the document exactly when the Index row stood where its
  number belongs (`DirectiveInverse.RetireThenReaccept`). This is for an entry that is its own
  rendering with its own Index row, no Retired row, and a file that ends in a newline. An entry
  that already had a Retired row loses it, and a missing final newline is added.
- The Index stays sorted through a run exactly when each new directive's number is above the
  Index (`DirectiveStates.RunSortedIff`); `DirectiveUnsorted.ExportUnsorts` is a run that breaks it.
- A rewritten finding keeps its natural key exactly when `FindingsKeyCases.KeepsKey` holds of the
  entry before. It loses the key when its suggestion is its last field and a disposition line is
  added (`KeyCanBeLost`), and when nothing follows the suggestion's marker on its line, so that
  the Status line is read as the suggestion (`StatusKeyIsLost`). A second export rewrites an entry
  again only if it has no Status line and its new key is that of another decided finding
  (`FindingsRepeat.SecondExportIff`, `FindingsKeyCases.SecondExportCanRewrite`).
- `internal/api/allocate.go` reads back ids of eight-digit dates only, and adds one without a
  bound. A caller with no competitor is refused exactly when the first number of a date that is
  not eight digits, or the wrapped number of a used-up day, is taken (`AllocationAlone.LoneAttempt`).
  The validation of the date lets `-2026090` through, and the second request for it is answered 503
  (`AllocationAlone.OddDateIsRefused`).
- The service refuses some of what the reconciler asks for, and the reconciler asks again on every
  pass: a status that a finding cannot move to, an approver or date that is too long, an outcome
  taken back, a next action that is too long, a mission without a title. The conditions for a quiet
  second pass say so (`ReconcileFindings.SecondPassIsQuiet`, `ReconcileMissions.SecondPassIsQuiet`;
  `AppliedIsAskedAgain`, `OutcomeIsAskedAgain`). Two findings of one row that want different
  statuses, and two step rows of one label that disagree on a field both fill
  (`ReconcileSteps.SecondPassIsQuiet`), are written on every pass.
- A mission whose create succeeds and whose follow-up PATCH fails is counted both as created and
  as failed (`ReconcileMissions.ReconcileMissions`).

## Model

| member | source | states |
|---|---|---|
| DirectiveLines.HeadingId | scripts/export-decisions.py:240-256 | A rendered heading reads back as a directive heading of its own id |
| DirectiveLines.RowCarriesId | scripts/export-decisions.py:264-268 | A rendered table row reads back as a row of its own id |
| DirectiveLines.RenderedIsOneLine | scripts/export-decisions.py:230-261 | Every rendered line is one line exactly when the id and the Added text are, whatever line breaks the service's text holds |
| TextWords.CleanKeepsWords | scripts/export-decisions.py:230-232 | A text of words between white space is cleaned to the same words in the same order with one space between neighbours |
| TextWords.EveryTextHasWords | scripts/export-decisions.py:230-232 | Every text is such words and white space, so that describes every cleaned text |
| TextWords.CleanStrip | scripts/export-decisions.py:230-232 | White space at the ends of a text makes no difference to it |
| DirectiveCells.CellHoldsValue | scripts/export-decisions.py:235-237 | A cell has no bar without a backslash, is the cleaned value if that has no bar, and in any case reads as it does |
| DirectiveCells.IndexRowCells | scripts/export-decisions.py:264-269 | Cut at its bars, a rendered Index row gives the id, the title, the shortened Applies when and active |
| DirectiveCells.RetiredRowCells | scripts/export-decisions.py:388-393 | Cut at its bars, a rendered Retired row gives the id, the title, deprecated and a dash |
| DirectiveCells.TitleBehindDash | scripts/export-decisions.py:207-207 | The title of a heading is what stands behind the dash |
| DirectiveForms.SectionIff | scripts/export-decisions.py:204-206 | A line ends an entry exactly when it is a heading of level one, two or three |
| DirectiveForms.RowIdIff | scripts/export-decisions.py:209-209 | A row belongs to an id exactly when its first cell holds the id alone |
| DirectiveForms.StatusIff | scripts/export-decisions.py:210-210 | A line is a Status bullet exactly when one word stands between blanks behind the mark; the three parts are kept |
| DirectiveForms.AddedIff | scripts/export-decisions.py:211-211 | What is read of an Added bullet is its text without the blanks around it |
| DirectiveForms.OwnedIff | scripts/export-decisions.py:306-315 | An entry is service-owned exactly when the first Source field of its Added text, up to a dot between blanks, names the service; a mention elsewhere does not count |
| DirectiveForms.HeadersAre | scripts/export-decisions.py:208-208 | The two tables are known by the titles of their columns and the rule below |
| DirectiveEntries.OwnedAppend | scripts/export-decisions.py:306-315 | White space at the end of the Added bullet does not change who owns the entry |
| DirectiveEntries.NewOwned | scripts/export-decisions.py:259-261 | A new entry reads back as service-owned, whatever its date and evidence |
| DirectiveEntries.AddedReadsBack | scripts/export-decisions.py:202-212 | The Added text is read back as rendered, up to blanks |
| DirectiveEntries.WrittenShape | scripts/export-decisions.py:406-410 | A written entry has its id, the template's shape and status active |
| DirectiveEntries.WrittenIsSettled | scripts/export-decisions.py:326-328 | What is written compares equal to what would be rendered next time |
| DirectiveEntries.RetireShape | scripts/export-decisions.py:431-433 | Retiring keeps heading, shape and owner, and the status reads back as deprecated |
| DirectiveDoc.ApplyDirectiveDecisions | scripts/export-decisions.py:501-580 | The loop over the targets, with its touched and appended sets and early refusals, computes Apply; what Apply writes is stated by RunWritesDecisions and when it refuses by RunRefusedIff |
| DirectiveContent.RunWritesDecisions | scripts/export-decisions.py:501-580 | Read back from the written document, for every decision: a new or amended entry has the template's lines with the cleaned field of each name and the Added text, the Index row its cells, a retired entry the one status turned and its heading's title in the Retired row; the events say just that, an entry that says the same is left alone, and what the document holds about every other id is unchanged |
| DirectiveContent.SaysSameIff | scripts/export-decisions.py:326-328 | An entry is left alone exactly when it has the template's lines with the proposal's fields, up to white space at line ends and blank lines behind |
| DirectiveRefusals.RunRefusedIff | scripts/export-decisions.py:501-580 | A run is refused exactly when one of its decisions is, judged against the document before the run, and for the reason of the first one; the reasons are an entry over 1510 characters, no status line or another status, lines outside the template, or a foreign heading below |
| DirectiveTargets.BuildTargets | scripts/export-decisions.py:476-493 | Exactly the ids with an accepted or declined proposal for this harness or none get a target, and it is a proposal such that no other on the id has a later time, or the same time and a higher number; times are compared character by character |
| DirectiveTargets.ListingOrderDoesNotMatter | scripts/export-decisions.py:476-493 | The targets do not depend on the order of the proposals when no two on an id have the same time and number |
| DirectiveTargets.LastDecisionStands | scripts/export-decisions.py:476-493 | The decision later than all others on its id is the target |
| DirectiveWellFormed.WellFormedIff | scripts/export-decisions.py:286-347 | Being well formed is equal to checks on the lines: both tables found, Index above the blank line before Retired Entries, headings between, one per id |
| DirectiveSections.SpanAt | scripts/export-decisions.py:298-303 | An entry between texts without its id is found exactly where it is |
| DirectiveSections.IndexTableAt | scripts/export-decisions.py:331-347 | The Index rows are found exactly where they are |
| DirectiveSections.RetiredTableAt | scripts/export-decisions.py:331-347 | The Retired rows are found exactly where they are, below their heading |
| DirectiveSections.RemoveRowsAt | scripts/export-decisions.py:357-363 | Cutting rows last first leaves exactly the other rows, in order, and all other text |
| DirectiveSections.SetRowAt | scripts/export-decisions.py:366-379 | Replacing or inserting an Index row changes that row alone |
| DirectiveRefine.Tables | scripts/export-decisions.py:331-347 | In a well-formed document both tables are found where its parts lie |
| DirectiveRefine.Spans | scripts/export-decisions.py:286-303 | In a well-formed document an entry is found exactly when there is one, at its span |
| DirectiveRefine.SetBodyValid | scripts/export-decisions.py:406-410 | Rewriting one entry keeps the document well formed |
| DirectiveRefine.AddEntryValid | scripts/export-decisions.py:396-403 | Adding an entry of a new id keeps the document well formed |
| DirectiveStep.InsertEntryRefines | scripts/export-decisions.py:396-403 | Inserting an entry puts it after all others, above Retired Entries, and changes nothing else |
| DirectiveStep.SetIndexRefines | scripts/export-decisions.py:366-379 | Setting the Index row in the text sets it in the parts |
| DirectiveStep.RemoveRetiredRefines | scripts/export-decisions.py:357-363 | Removing Retired rows in the text removes them in the parts |
| DirectiveStep.StepRefines | scripts/export-decisions.py:513-575 | Every decision on every well-formed document does to the text exactly what it does to the parts, refusals included |
| DirectivePreservation.MaskRefines | scripts/export-decisions.py:436-449 | Cutting spans and rows by position leaves exactly the parts that do not belong to the ids, and never overlaps |
| DirectivePreservation.StepKeeps | scripts/export-decisions.py:513-575 | One decision changes nothing outside the span and rows of its id |
| DirectivePreservation.NoActionNoChange | scripts/export-decisions.py:513-575 | A decision reports at most one event, and without an action it changes nothing |
| DirectiveDecisions.RunKeeps | scripts/export-decisions.py:513-575 | Over a run, ids that were not changed keep their entries, and changed ones were and are service-owned |
| DirectiveDecisions.CheckPasses | scripts/export-decisions.py:452-473 | The preservation check passes after every run over a well-formed document |
| DirectiveDecisions.CheckMeansPreserved | scripts/export-decisions.py:452-473 | For any two well-formed documents the check accepts exactly when touched entries were and are owned, appended ones are, and all other text is the same |
| DirectiveDecisions.PreservationHolds | scripts/export-decisions.py:501-580 | On every well-formed document and any decisions: no refusal comes from preservation or structure, the masked text is unchanged, foreign entries are unchanged, changed ones are service-owned before and after, and the result is well formed |
| DirectiveIdempotence.StepSettles | scripts/export-decisions.py:513-575 | A decision leaves its entry in a state the same decision leaves alone |
| DirectiveIdempotence.ExportIsIdempotent | scripts/export-decisions.py:501-580 | Exporting the same decisions again, in any order and on any day, takes no action and leaves the text as it is |
| DirectiveRepeat.RepeatIsQuietIff | scripts/export-decisions.py:501-580 | The exact condition on the document before the first export under which the second is quiet |
| DirectiveRepeat.RecordedDateIsStable | scripts/export-decisions.py:519 | The branch of that condition about dates always holds of a recorded time and of the day the exporter prints: both begin with a digit |
| DirectiveRefused.SecondExportIsRefused | scripts/export-decisions.py:406-410 | A document at the length limit: the first export amends its entry and passes every check, the second export of the same decision is refused |
| DirectiveRefused.DocumentIsValid | scripts/export-decisions.py:286-347 | That document is well formed |
| DirectiveInverse.RowReturns | scripts/export-decisions.py:366-379 | A dropped and re-set Index row returns to its place exactly when its number belongs there |
| DirectiveInverse.RetireThenReaccept | scripts/export-decisions.py:536-575 | Declining and accepting again restores the whole document exactly when the Index row stood in place |
| DirectiveStates.StepConsistent | scripts/export-decisions.py:517-575 | One decision keeps every id either active with an Index row or deprecated with a Retired row, never both |
| DirectiveStates.RunConsistent | scripts/export-decisions.py:513-575 | So does a whole run, and every id acted on ends in the state its decision names |
| DirectiveStates.SetRowSorted | scripts/export-decisions.py:366-379 | Setting a row keeps a sorted Index sorted |
| DirectiveStates.SetRowMovesNothing | scripts/export-decisions.py:366-379 | Setting a row leaves all other rows in their order |
| DirectiveStates.RunSortedIff | scripts/export-decisions.py:513-575 | In number order, the Index stays sorted through every decision of a run exactly when each new directive's number is above the Index |
| DirectiveStates.RunSorted | scripts/export-decisions.py:513-575 | The result of such a run is sorted, and its numbers stay below any bound on the numbers before and decided |
| DirectiveUnsorted.ExportUnsorts | scripts/export-decisions.py:382-385 | A document with a sorted Index that lists DIR-3 and an accepted DIR-2: the export succeeds and the Index it writes is not sorted |
| DirectiveUnsorted.ListedIsValid | scripts/export-decisions.py:286-347 | That document is well formed and its Index sorted |
| FindingsBlocks.SplitJoins | scripts/triage_common.py:53-67 | Joining the preamble and the blocks gives the text back, and every block starts at its only heading |
| FindingsBlocks.SplitIsUnique | scripts/triage_common.py:53-67 | There is one way to split a text |
| FindingsBlocks.SplitEntries | scripts/triage_common.py:53-67 | The positions and the slices between them are that split |
| FindingsExport.RewriteTwice | scripts/export-decisions.py:93-124 | Rewriting a rewritten entry changes nothing, and its status line names the decision |
| FindingsExport.ExportFindings | scripts/export-decisions.py:140-175 | The block loop writes Export, counts by verdict, and writes nothing when no entry is rewritten; what Export writes is stated by ExportRecords and what the counts are by CountsAreExact |
| FindingsRecord.RewriteRecords | scripts/export-decisions.py:93-124 | A rewritten entry names the status in its first Status line, the approver and the date in their lines for an approval and a dash in both otherwise, and carries the sentence of the disposition where one is asked for; every other line stays |
| FindingsRecord.ExportRecords | scripts/export-decisions.py:140-175 | In the exported text, entry by entry: one whose finding is decided and that stands as proposed carries that record, and every other is as it was |
| FindingsRecord.CountsAreExact | scripts/export-decisions.py:140-175 | The two counts are the number of entries that differ in the exported text and of those whose status is neither the finding's nor proposed |
| FindingsForms.KeyOfEntry | scripts/triage_common.py:70-79 | The key of an entry is its heading and the cleaned text from the first mark, in either spelling, up to the next field, cut to 2000 characters |
| FindingsForms.FieldIff | scripts/reconcile-memory.py:432-436 | A line starts a field exactly when it is a capitalised name of letters and spaces between stars, with the colon on either side of the second pair |
| FindingsExport.OnlyRewrittenDiffer | scripts/export-decisions.py:140-175 | The exported text splits into the same preamble and as many entries, which keep their headings and differ exactly where one was rewritten |
| FindingsRepeat.ExportIsIdempotent | scripts/export-decisions.py:127-184 | When every rewritten entry has a Status line, a second export rewrites nothing, whatever becomes of the keys |
| FindingsRepeat.SecondExportIff | scripts/export-decisions.py:127-184 | For every ledger, from its entries before the first export: the second changes nothing exactly when no entry without a Status line is rewritten and gets the key of a finding that disagrees with the lines it has |
| FindingsKeys.NextKeyIs | scripts/triage_common.py:70-79 | The key of any rewritten entry is the one predicted from the entry and the finding |
| FindingsRepeat.RewriteFixedIff | scripts/export-decisions.py:93-124 | A rewrite leaves an entry as it is exactly when it already says the finding's lines |
| FindingsRepeat.SecondVerdict | scripts/export-decisions.py:140-160 | On a rewritten entry with a Status line the second export finds a conflict exactly when its key is now that of a finding with another status |
| FindingsKeys.RewriteIsNewLines | scripts/export-decisions.py:93-124 | A rewritten entry is the old one with the first line of each kind replaced in its place, or the disposition line behind the last |
| FindingsKeys.KeyAfterIs | scripts/triage_common.py:70-79 | The key read from a rewritten entry, from the lines before: where the suggestion's text starts, on the marker's line or below, and where it ends |
| FindingsKeys.RewriteKeepsKey | scripts/triage_common.py:70-79 | The key is kept if the line the suggestion's text starts on is no decision line that changes and the suggestion does not swallow the disposition line |
| FindingsKeyCases.RewriteKeepsKeyIff | scripts/reconcile-memory.py:424-440 | The exact condition, on the entry and the finding before the rewrite, case by case |
| FindingsKeyCases.OtherLinesKeepKeyIff | scripts/reconcile-memory.py:424-440 | With an approver, date or disposition line in the suggestion: the key is kept exactly when the lines are the same once cleaned, white space behind them aside, or the cut hides where they differ |
| FindingsLines.SameTextIff | scripts/reconcile-memory.py:342-349 | Two readings clean to the same text exactly when their cleaned lines are the same, so a change of one line shows unless cleaning removes it |
| ReconcileText.TruncateSameIff | scripts/reconcile-memory.py:453-454 | Two texts are shortened to the same exactly when they are equal, agree visibly up to the cut, or one ends as if it were cut |
| ReconcileText.NothingIsWritten | scripts/reconcile-memory.py:342-349 | Exactly six texts, or none, stand for nothing; any other value is kept as it reads |
| FindingsKeyCases.StatusFirstLosesKey | scripts/reconcile-memory.py:424-440 | An undecided entry whose suggestion starts on its Status line always loses its key |
| FindingsKeyCases.NewDispositionKeepsKey | scripts/export-decisions.py:112-123 | For an entry given its first disposition line: the key is kept exactly when a field follows the suggestion or the shortening hides what is added |
| FindingsKeyCases.KeyCanBeLost | scripts/export-decisions.py:120-123 | An entry of two lines that loses its key to a note |
| FindingsKeyCases.StatusKeyIsLost | scripts/reconcile-memory.py:424-440 | An entry of three lines that loses its key without any disposition line |
| FindingsKeyCases.SecondExportCanRewrite | scripts/export-decisions.py:127-184 | A ledger whose second export rewrites an entry for another finding |
| FindingsKeyCases.SafeLedgerConverges | scripts/export-decisions.py:127-184 | When the entries to rewrite that have no Status line keep their keys, a second export changes nothing |
| MutantAnchors.AnchorOffsets | scripts/check_mutants.py:121-131 | The result is increasing and holds exactly the occurrences that begin on the line, overlapping ones included |
| MutantAnchors.Locate | scripts/check_mutants.py:134-158 | An offset is returned exactly when one occurrence begins on the line; otherwise there are several, or the lines named are exactly those on which the text occurs |
| MutantAnchors.PlantIsOneEdit | scripts/mutate.py:572-580 | Planting changes the window alone, puts the new text on the same line, and is undone by the reverse edit |
| MutantAnchors.PlantMovesLines | scripts/mutate.py:580 | Every later line moves by the same number |
| MutantMirrors.CheckRecord | scripts/check_mutants.py:63-233 | The check reports nothing exactly when every row is whole, ids are distinct, retired rows name only active ones, and every active row is anchored in its file and paired with a row that names it; every error it reports names a fault that a row has |
| MutantReasons.FoundIdsOccur | scripts/check_mutants.py:168-190 | Every id that is found in a reason is in it, between word boundaries, and is a capital, then capitals, digits and at least one single hyphen |
| MutantReasons.StandingIdIsFound | scripts/check_mutants.py:168-190 | Every id that stands in a reason between neither word characters nor hyphens is found |
| MutantReasons.NamedIff | scripts/check_mutants.py:181-183 | A reason names an id exactly when it is found as above or is a known one that stands in it alone, and is not the row's own |
| MutantPaths.InsideIff | scripts/check_mutants.py:110-111 | The path check refuses exactly the paths that start at the root or have two dots between slashes or ends |
| MutantMirrors.AcceptedMutantsPlant | scripts/mutate.py:572-580 | Every active mutant of an accepted record can be planted in exactly one place, changes the file, and can be undone by the reverse edit |
| MutantMirrors.NoMirrorError | scripts/check_mutants.py:207-219 | A row has no mirror error exactly when some row is its pair |
| MutantMirrors.MirrorIsAnInvolution | scripts/check_mutants.py:194-219 | In an accepted record, mirror is a fixed-point-free involution on the active ids |
| MutantMirrors.ActiveRowsAreEven | scripts/check_mutants.py:194-219 | An accepted record has an even number of active mutants |
| MutantRunner.RunIsFinite | scripts/mutate.py:530-541 | A run with finitely many signals has finitely many steps, so no restore is retried for ever |
| MutantSafety.OriginalsAreNeverLost | scripts/mutate.py:494-603 | In every state of every history, kills included, a file holds its original bytes or is named in the marker with a copy that holds them, unless a signal started a restore without an entry |
| MutantSafety.UncoveredRestoreCanLose | scripts/mutate.py:530-541 | After any such signal there are three steps to a state where a kill loses the original |
| MutantSafety.OriginalCanBeLost | scripts/mutate.py:582-603 | A whole history, from a clean tree, that ends with a file that is damaged and named by no entry |
| MutantExit.ExitStatusIsHonest | scripts/mutate.py:670-853 | For every placement of signals, an exit status other than 1 means that every planted file has its committed bytes and no marker entry |
| MutantStatus.SuccessMeansKilled | scripts/mutate.py:822-853 | A run that exits with 0 or 4 has one outcome for each chosen mutant, about its file, and each was planted, killed and restored; it is 4 exactly when a mutant and its mirror failed with the same message |
| MutantStatus.BadOutcomeFails | scripts/mutate.py:843-850 | A mutant that survived, was not judged or is not restored: the exit status is neither 0 nor 4 |
| MutantStatus.StoppedRunExits | scripts/mutate.py:670-690 | A run that stops does so with 5 or 3; it exits with 1 exactly when a planted file is not restored, and otherwise with the status it was stopping with |
| MutantStatus.RefusalPlantsNothing | scripts/mutate.py:766-785 | A run that exits with 2 has planted nothing |
| MutantStatus.StatusTellsSignals | scripts/mutate.py:795-821 | A run that exits with 0 or 4 was not signalled, wherever a signal could have landed; one that exits with 5 was |
| MutantExit.SignalDuringRestoreStops | scripts/mutate.py:481-541 | A signal that lands during a restore is recorded and no plant follows it in the run |
| MissionIds.PrintThenParse | internal/api/allocate.go:56-56 | Reading undoes printing, for every number up to the machine's greatest |
| MissionIds.IdText | internal/api/allocate.go:170-172 | The id has the tens and the units of the number behind the date up to 99, and from 100 on the decimal number without a leading zero |
| MissionIds.NextSequence | internal/api/allocate.go:237-267 | The scan returns the successor of the greatest number that any id counts for, or of zero |
| MissionIds.NextIsFresh | internal/api/allocate.go:167-197 | The id tried is not among those read, whatever other shapes they have, and counts for the next number |
| MissionIds.WrappedIsInvisible | internal/api/allocate.go:237-267 | A wrapped number prints as an id that counts for nothing |
| MissionIds.OddDateRepeats | internal/api/allocate.go:45-56 | On a date that is not eight digits the id tried is always the first one |
| Allocation.NumbersHaveNoGap | internal/api/allocate.go:118-228 | In every reachable state the numbers of a day without foreign ids are 1 to k in commit order, ids are unique, and each allocated mission has exactly one audit row |
| AllocationAnswers.AnswerIsItsRow | internal/api/allocate.go:118-228 | In every reachable state a caller that was answered has its row of that id committed and an audit row; on an eight-digit date the number in the answer is the one the id carries, and on a day without foreign ids the row's place |
| Allocation.CollisionHasCompetitor | internal/api/allocate.go:158-228 | A collision means that the same id was committed by another between this read and this insert |
| Allocation.NoCompetitorNoCollision | internal/api/allocate.go:158-228 | A caller nobody overtakes succeeds at its first insert |
| Allocation.UnavailableMeansTenCommits | internal/api/allocate.go:63-148 | A 503 means at least ten commits of the day since the request came, none of them the caller's |
| AllocationAlone.LoneAttempt | internal/api/allocate.go:158-267 | Before the attempt: a caller that reads all and inserts before others commit collides exactly when the first id of an odd date, or the wrapped id of a used-up day, is taken; otherwise its mission is created |
| AllocationAlone.StuckUntilUnavailable | internal/api/allocate.go:118-148 | Such a caller left alone uses up its attempts and is answered 503 |
| AllocationAlone.FreeSucceeds | internal/api/allocate.go:118-148 | Any other succeeds at its first attempt |
| AllocationAlone.OddDateIsRefused | internal/api/allocate.go:45 | A run from nothing of two requests for a date the validation lets through, one after the other, the second answered 503 |
| AllocationAlone.WrappedNumberRepeats | internal/api/allocate.go:237-267 | Past the greatest machine integer every attempt tries the same id |
| JournalPages.FetchJournal | scripts/reconcile-memory.py:1027-1061 | Whatever the server answers, at most 1000 requests; what is returned is every row sent, in order, and only after the server said there are no more |
| JournalPages.ReadIsTheList | scripts/reconcile-memory.py:1005-1061 | Against a server that pages a fixed list the read is that list if it fits in 1000 pages, and raises otherwise |
| JournalPages.GrowingJournalMissesNothing | internal/api/flight_recorder.go:171-188 | Rows appended between requests can repeat a row but hide none that was there at the start |
| PushBatches.PushMemory | scripts/reconcile-memory.py:280-335 | The requests concatenated are the changed files of at most 1 MiB, each once and in order, within the limits of 200 files and 6 MiB, and each but the last is full |
| PushBatches.FullBatches | scripts/reconcile-memory.py:295-325 | Full batches number at most one per 200 files and one per 5 MiB |
| PushBatches.RequestBound | scripts/reconcile-memory.py:295-325 | The requests number at most 1 + files / 200 + bytes / 5 MiB |
| ReconcileText.SentValuesAreKept | scripts/reconcile-memory.py:342-454 | A cleaned and shortened value has no white space at its ends, so a service that trims keeps it, and shortening again changes nothing |
| ReconcileText.TruncateExtended | scripts/reconcile-memory.py:453-454 | Continuing a text after white space shows in the shortened value unless the cut hides it |
| ReconcileMissions.ReconcileMissions | scripts/reconcile-memory.py:773-875 | The pass, with each mission in one bucket except a create whose follow-up fails |
| ReconcileMissions.HarnessNeverMoves | scripts/reconcile-memory.py:773-830 | Whatever fails or is refused, no mission is lost, none changes a harness it has, and missions not in the files are unchanged |
| ReconcileTallies.MissionTallies | scripts/reconcile-memory.py:795-875 | Skipped are exactly the missions listed that do not differ, updated only listed ones that do, created only ones not listed, every other one failed, and none fails when the service takes every request |
| ReconcileTallies.AnsweredPassStores | scripts/reconcile-memory.py:773-875 | After a pass with every request answered, each mission's row says what the file says, field by field, or is as it was when the service refuses |
| ReconcileMissions.SecondPassIsQuiet | scripts/reconcile-memory.py:773-875 | From any store, with every request answered, the second of two passes writes nothing exactly when the service accepts what each mission asks for |
| ReconcileMissions.ParsedMissionsConverge | internal/model/mission.go:46-73 | For missions read from the files: exactly when no outcome is taken back, new next actions fit, and created missions have a title and names that fit |
| ReconcileMissions.OutcomeIsAskedAgain | internal/model/mission.go:66 | A stored outcome that the file lacks is asked for on the second pass |
| ReconcileSteps.Reconcile | scripts/reconcile-memory.py:878-1002 | Every parsed step lands in exactly one of created, updated, unchanged, failed and skipped, for any pattern of failures |
| ReconcileSteps.ValuesHaveSources | scripts/reconcile-memory.py:953-1000 | Every stored field after a pass was stored before or sent by a step of the same key |
| ReconcileTallies.StepTallies | scripts/reconcile-memory.py:968-1002 | Unchanged are exactly the steps whose fetched row says what they say, updated only ones whose key was fetched, created only ones whose key was not; the others failed |
| ReconcileTallies.LastWriteStands | scripts/reconcile-memory.py:968-1002 | With every write taken, the row of a key says in every filled field what the last step written to it says |
| ReconcileSteps.SecondPassIsQuiet | scripts/reconcile-memory.py:878-1002 | The second of two passes writes nothing exactly when rows of one step agree on every field both fill |
| ReconcileSteps.DistinctLabelsAgree | scripts/reconcile-memory.py:878-1002 | Distinct labels are enough |
| ReconcileJournal.ReconcileJournal | scripts/reconcile-memory.py:1064-1150 | The buckets, in total and for each mission, are exact counts, the totals sum to the events parsed, and the two warnings count the missions capped and those whose fetch failed |
| ReconcileJournal.TalliesSumToParsed | scripts/reconcile-memory.py:1014-1134 | The missions' tallies and the events out of scope sum to the events parsed, for any fetch failures, caps and write failures |
| ReconcileJournal.SecondPassWrites | scripts/reconcile-memory.py:1110-1128 | A second pass writes an event exactly when it is in scope, was not held before, and no equal event was created by the first |
| ReconcileJournal.SecondPassIsQuiet | scripts/reconcile-memory.py:1064-1150 | After a first pass without failures the second writes nothing |
| ReconcileFindings.Index | scripts/reconcile-memory.py:1178-1187 | One dictionary holds the oldest row of each key, the other the newest of each target and suggestion |
| ReconcileFindings.SendMissing | scripts/reconcile-memory.py:1207-1233 | A new entry is created, found again and decided, with each failure counted |
| ReconcileFindings.ReconcileFindings | scripts/reconcile-memory.py:1153-1244 | The pass; every entry is created, found or counted as failed, and rows are only added |
| ReconcileTallies.FindingTallies | scripts/reconcile-memory.py:1189-1244 | Skipped are exactly the entries whose target and suggestion the service has, created only others, decided only those whose decision it lacks; all of them when nothing fails |
| ReconcileTallies.AnsweredEntryCounts | scripts/reconcile-memory.py:1189-1244 | With the service answering, a decision it lacks counts as decided exactly when it takes it on the row as it then is, and as failed otherwise |
| ReconcileTallies.CreatedReads | internal/api/findings.go:35-42 | A finding that is created ends with its decision, unless a name or date is too long to send |
| ReconcileFindings.MovesAre | internal/api/findings.go:31-42 | The table of moves as rules: an open finding takes any other status, a closed one is reopened only, an applied one can also be retired or superseded |
| ReconcileFindings.SecondPassIsQuiet | scripts/reconcile-memory.py:1153-1244 | From any store, with every request answered, the second of two passes asks for nothing exactly when every decided entry settles: the entries of a row agree and the service lets the row move there, or the first entry of a new key gets what is asked |
| ReconcileFindings.AgreedStatus | internal/api/findings.go:35-42 | A row whose entries agree ends as they ask if one decision is sent and its status can move, and as it was otherwise |
| ReconcileFindings.QuietWhereAllowedIff | scripts/reconcile-memory.py:1153-1244 | Over every store that refuses none of the moves: exactly when entries of one target and suggestion agree and the first entry of a key is decided if any is |
| ReconcileFindings.DistinctPairsAreQuiet | scripts/reconcile-memory.py:1153-1244 | With distinct targets and suggestions: exactly when each decision can be sent and its row can take it or has taken it |
| ReconcileFindings.AppliedIsAskedAgain | internal/api/findings.go:303-360 | A finding the service holds as applied and the file as approved is asked for on the second pass |
| HarnessRename.MovesAreOneSubstitution | scripts/rename-harness.py:48-72 | One rename after another equals replacing every name at once, in the harness columns, the part of each agent before its first colon, and the registry |
| HarnessRename.AnyOrder | scripts/rename-harness.py:82-90 | The order of accepted pairs does not matter |
| HarnessRename.SecondRunIsQuiet | scripts/rename-harness.py:48-72 | A second run changes nothing |
| HarnessRename.ChainsDependOnOrder | scripts/rename-harness.py:88-90 | Without the check that no name is both renamed and a target, the order would matter |
| HarnessRename.AgentOwner | scripts/rename-harness.py:57-61 | The SQL prefix test is a test of the part before the first colon |
| HarnessRename.ParsePairIff | scripts/rename-harness.py:82-87 | An argument is taken exactly when it is two different names around its first equals sign, the old one in front |
| HarnessRename.ParsePairReads | scripts/rename-harness.py:82-87 | What was read of an argument, joined with an equals sign, is the argument |
| HarnessRename.RenamedReads | scripts/rename-harness.py:40-72 | The substitution the parsed arguments stand for is what the arguments ask of every cell and of the registry |
| HarnessRename.Database.UpdateHarness | scripts/rename-harness.py:51-56 | The loop of updates moves the harness columns of the four tables and no other |
| HarnessRename.Database.UpdateAgents | scripts/rename-harness.py:57-63 | The loop of updates moves the agents of the three tables and no other, and fails exactly when a table is missing |
| HarnessRename.Database.Rename | scripts/rename-harness.py:48-72 | One call does exactly one move of the whole database, or fails because a table is missing |
| HarnessRename.Database.RunRenames | scripts/rename-harness.py:75-125 | Refused arguments, an error and a dry run leave the database as it was; after an applied run, for every argument a=b, each harness a of missions, findings, directive_proposals and documents is b, each agent a:x of flight_recorder, mission_steps and service_records is b:x, the registry follows, and all else is unchanged |

## Left out

- DirectiveDoc.ApplyDirectiveDecisions: the report's titles and unified diffs are not modelled, only the id and kind of each action, conflict and note; the targets come in any order, where the exporter sorts them by number.
- DirectiveInverse.RetireThenReaccept: says nothing about an entry that differs from its rendering, has a Retired row or foreign text behind it, or a file without a final newline.
- MutantSafety.OriginalsAreNeverLost: holds for histories without a signal that starts a restore the marker does not cover; with one it is false, and that is proved.
- FindingsKeyCases.RewriteKeepsKeyIff: does not cover an entry whose suggestion marker stands on a decision line itself, or above whose marker a line is written that holds the marker; the suggestion is then read from another line.
- ReconcileFindings.ReconcileFindings: the dry run and the warning about an unknown mission are not modelled, and every create that is answered is accepted: its fields were shortened to the service's limits, and mission ids and harness names are taken to fit.
- MutantMirrors.CheckRecord: word characters are ASCII letters, digits and the underscore, where the patterns over reasons also admit other alphabets; a line number is an integer or missing.
- Text is a sequence of lines split at newlines. The evidence label of a new directive entry, and the approver and the note of a finding that is exported, are taken to be one line each; the source would write several. Digits are the ASCII digits, where the patterns also admit others.
- The preservation mask assigns each line to its owner instead of sorting a list of cuts; the overlap refusal is kept.
- Approvers and dates with a backslash, which the replacement templates would interpret, are treated as plain text in the findings export; printing dates is a parameter, and the natural key's date and target are represented by the heading they are read from.
- `mutate.py` is a state machine over values rather than an object with fields, because a signal or a kill may come between any two assignments. Killers, process groups, timeouts, fsync, flock and git are not part of it; a killer does not write the planted file, the marker is replaced atomically, clean against HEAD means that the bytes are equal, and a log directory belongs to one specification.
- SQLite is an atomic commit and a primary key; the allocator's transaction reads some earlier state of the commit log.
- The service behind the reconciler is an abstract store with the refusals named above; steps and journal events are accepted when they are answered. HTTP, configuration, argument parsing and printed reports are not modelled.
- Parsing the Markdown sources of missions, steps, events and findings into records is a parameter of the reconciler's model.
- The thin handlers and proxies, the access log, the directive listing, seeding and probe scripts, and the classification of test output.
