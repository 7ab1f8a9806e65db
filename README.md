# iMasteryTracker, modelled in Dafny

iMasteryTracker is a personal learning dashboard. It tracks learning streams with milestone counts, daily habits with check-ins, and journal reflections. It has two halves:

- **Server.** A Reflex/SQLModel Python application. Its pydantic schemas validate records. `DashboardState` holds the event handlers and the computed dashboard figures. A small Starlette JSON API exposes create, delete, list, export and import.
- **Browser.** A standalone vanilla-JS workspace. A state store keeps one JSON value in `localStorage`, and the `app.js` handlers change it through `mutate` producers. A separate error monitor keeps a bounded log of uncaught errors and announces them with a sliding-window dedupe.

The model has one Dafny module per concern:

| file | module | what it holds |
|---|---|---|
| `wrappers.dfy` | `Wrappers` | `Option` and `Result` |
| `text.dfy` | `Text` | Python and JS string built-ins the core relies on: strip/trim, `str`/`int` on integers, `:02` padding, `capitalize`, `title`, one-character `replace`, `split`/`join` |
| `schemas.dfy` | `Schemas` | the pydantic models as validators from raw input to `Result` |
| `records.dfy` | `Records` | the three tables as in-memory rows, and `class Store` (tables, id counters, a ghost log of commits) |
| `metrics.dfy` | `Metrics` | the `@rx.var` figures as functions over rows |
| `dashboard.dfy` | `Dashboard` | `class DashboardState`: modal flags, form fields and toast, over a `Store` |
| `api.dfy` | `Api` | the HTTP handlers as methods returning `Response(status, body)` |
| `error_monitor.dfy` | `ErrorMonitoring` | `class Monitor` and the pure normalising/formatting helpers |
| `browser_state.dfy` | `BrowserState` | the workspace value, `mergeWithDefaults`, storage detection, and `class StateStore` |
| `browser_app.dfy` | `BrowserApp` | the `mutate` producers and handlers of `app.js`, `escapeHtml`, `describeDueDate`, the overview figures |

Parameters stand in for the clock, the random colour, fresh ids and storage.

- Timestamps, "today" and "yesterday" are parameters.
- `random.choice` is a nondeterministic pick from the palette.
- `createId` is a function `ids` from position to id.
- The browser storage is a `StorageApi` value saying which methods exist and whether the probe write succeeds.
- The SQL database is a `Store` object. Its `commits` field records every state a commit made visible.

## Model

| member | source | states |
|---|---|---|
| Text.Strip | imasterytracker/schemas.py:16-20 | the stripped text is no longer than the input and has no whitespace at either end |
| Text.RStrip | imasterytracker/state.py:296 | rstrip keeps a prefix of the text that does not end in whitespace, and drops only whitespace |
| Text.StripEmptyIffAllSpace | imasterytracker/schemas.py:16-20 | stripping gives "" exactly when the text is all whitespace, so min_length=1 after strip rejects blank input |
| Text.StripIdempotent | scripts/error-monitor.js:135 | stripping twice is stripping once |
| Text.StripUnpadded | imasterytracker/state.py:293 | text with no whitespace at its ends is left as it is |
| Text.NatToDecimal | imasterytracker/state.py:267 | the rendering is a non-empty digit string with no leading zero |
| Text.DecimalRoundTrip | imasterytracker/state.py:267 | reading a rendered number back gives the number |
| Text.DecimalInjective | scripts/app.js:464-468 | different numbers render differently |
| Text.IntToString | imasterytracker/state.py:267 | a negative number is "-" followed by the digits of its magnitude |
| Text.ParseIntRoundTrip | imasterytracker/api.py:71 | int() of str(i) is i, for every integer |
| Text.ParseNumeral | imasterytracker/schemas.py:12-13 | a numeral parses exactly when it is an optional sign and one or more digits |
| Text.ParseInt | imasterytracker/api.py:71 | int() of a path string: read exactly when, after stripping, it is ASCII digits, or a sign followed by digits |
| Text.Pad2 | imasterytracker/state.py:232 | all digits; exactly two characters below 10 with a leading "0", otherwise the plain numeral's length and no leading "0" |
| Text.Pad2RoundTrip | scripts/app.js:103 | the padded rendering reads back as the number |
| Text.CapitalizeKeepsLetters | imasterytracker/state.py:537 | capitalize changes only letter case |
| Text.Capitalize | imasterytracker/state.py:537 | capitalize keeps the length; the first character is not lower case and no later one is upper case |
| Text.TitleCaseSpec | imasterytracker/api.py:177 | title() changes only letter case, and a letter is upper case exactly when no letter precedes it |
| Text.ReplaceChar | imasterytracker/api.py:177 | after replacement the character is gone unless the replacement contains it, and no other character appears |
| Text.ReplaceCharAppend | scripts/app.js:480-485 | replacement distributes over concatenation |
| Text.ReplaceAbsent | scripts/app.js:480-485 | a text without the character is unchanged |
| Text.Split | scripts/app.js:258-261 | splitting gives at least one piece and no piece contains the separator |
| Text.SplitJoin | scripts/app.js:258-261 | joining the pieces with the separator gives the text back |
| Schemas.RequiredText | imasterytracker/schemas.py:10-20 | a required name is accepted exactly when present and not blank; it is stored stripped; a missing one is "Field required" |
| Schemas.DefaultedText | imasterytracker/schemas.py:63-72 | a missing title takes the default; a given one is stripped and rejected when blank |
| Schemas.OptionalText | imasterytracker/schemas.py:40-49 | a missing free-text field takes the default; a given one is stripped and may end up empty |
| Schemas.BoundedInt | imasterytracker/schemas.py:12-13 | an integer field is accepted exactly when it denotes an integer at or above its bound; a missing one takes the default |
| Schemas.ValidateStream | imasterytracker/schemas.py:9-27 | accepted exactly when the name is non-blank, the total is an integer ≥ 1 and completed an integer ≥ 0; then the name is stripped, total kept, and completed capped at total, so 0 ≤ completed ≤ total |
| Schemas.ValidateHabit | imasterytracker/schemas.py:40-49 | only a missing or blank name fails; cadence defaults to "Daily" and context to "", both stripped |
| Schemas.ValidateEntry | imasterytracker/schemas.py:63-72 | accepted exactly when the title is missing or non-blank and the reflection non-blank; the title defaults only when missing |
| Schemas.ValidateList | imasterytracker/schemas.py:86-89 | a list is accepted exactly when every item is; the result holds the validated items in order; failures are located under the list key and item index |
| Schemas.ValidateWorkspace | imasterytracker/schemas.py:86-89 | an accepted import satisfies every item invariant; a rejected one reports first an issue located under the first list, in the order streams, habits, journal_entries, that holds a failing item |
| Schemas.WorkspaceAcceptedIffItems | imasterytracker/schemas.py:86-89 | an import is accepted exactly when every item of every present list is |
| Schemas.WorkspaceStreams | imasterytracker/schemas.py:87 | the accepted streams are the given ones validated, in order |
| Schemas.WorkspaceHabits | imasterytracker/schemas.py:88 | the accepted habits are the given ones validated, in order |
| Schemas.WorkspaceEntries | imasterytracker/schemas.py:89 | the accepted journal entries are the given ones validated, in order |
| Schemas.MissingListsAreEmpty | imasterytracker/schemas.py:86-89 | an import without any of the three keys is an empty workspace |
| Schemas.EmptyNameZeroTotalImport | tests/test_api.py:35-41 | the test's payload is rejected, and the first issue is on the stream's name |
| Records.Find | imasterytracker/state.py:342-344 | the lookup finds the first row with the id, or reports that no row has it |
| Records.RemoveAtSpec | imasterytracker/state.py:353-359 | deleting a row removes exactly that record, keeps the id ordering, and its id is no longer found |
| Records.RemoveAtIndex | imasterytracker/state.py:353-359 | every remaining row keeps its relative position |
| Records.AppendKeyed | imasterytracker/state.py:327-336 | a row added with the next id keeps ids distinct and increasing |
| Records.Store.constructor | imasterytracker/state.py:95-100 | the store starts with empty tables and no commits |
| Records.Store.Commit | imasterytracker/state.py:336 | a commit makes the current tables visible and changes nothing else |
| Records.Store.InsertStream | imasterytracker/state.py:328-335 | the new row gets the next id, above every existing id, and is appended |
| Records.Store.InsertHabit | imasterytracker/state.py:386-391 | the new row gets the next id and is appended |
| Records.Store.InsertEntry | imasterytracker/state.py:443-448 | the new row gets the next id and is appended |
| Records.Store.DeleteStreamAt | imasterytracker/state.py:358 | the row is removed and its id no longer found |
| Records.Store.DeleteHabitAt | imasterytracker/state.py:415 | the row is removed and its id no longer found |
| Records.Store.DeleteEntryAt | imasterytracker/state.py:526 | the row is removed and its id no longer found |
| Records.Store.UpdateStreamAt | imasterytracker/state.py:345-349 | only the columns of that stream change; id and creation time stay |
| Records.Store.UpdateHabitAt | imasterytracker/state.py:402-406 | only the columns of that habit change; id and creation time stay |
| Records.Store.DeleteAll | imasterytracker/state.py:467-469 | all three tables become empty; id counters keep counting |
| Metrics.SumBounds | imasterytracker/state.py:216-218 | over valid streams, the summed completed count lies in [0, summed total] |
| Metrics.SumAllComplete | imasterytracker/state.py:216-218 | when every stream is complete the two sums agree |
| Metrics.CountIf | imasterytracker/state.py:237 | a count is at most the length; it is 0 exactly when no item qualifies and the length exactly when all do |
| Metrics.RoundHalfEven | imasterytracker/state.py:221 | Python's round: the nearest integer, a tie going to the even one |
| Metrics.MilestoneCompletion | imasterytracker/state.py:214-221 | 0 without milestones, otherwise the completed/total percentage rounded to the nearest integer, an exact .5 going to the even neighbour (Python's round) |
| Metrics.RoundInRange | imasterytracker/state.py:221 | a rounded ratio of a numerator in [0, k·den] lies in [0, k] and is k at the top |
| Metrics.CompletionInRange | imasterytracker/state.py:214-221 | over valid streams the completion lies in [0, 100] |
| Metrics.CompletionAllDone | imasterytracker/state.py:214-221 | when every stream is complete the completion is exactly 100 |
| Metrics.Format02 | imasterytracker/state.py:232 | f"{n:02}": zero-padded for n ≥ 0, a sign and digits otherwise |
| Metrics.MilestoneCopy | imasterytracker/state.py:227-232 | "00/00" when there are no milestones |
| Metrics.CopyReadsBack | imasterytracker/state.py:227-232 | the copy splits at "/" into two padded numbers that read back as the completed and total sums |
| Metrics.MilestoneDetail | imasterytracker/state.py:239-241 | the detail is the fixed label followed by the copy |
| Metrics.StreamsActiveCount | imasterytracker/state.py:298-300 | counts streams with milestones to go; 0 exactly when none has |
| Metrics.EarliestIncomplete | imasterytracker/state.py:262-264 | the earliest-created stream with milestones to go, or none exactly when every stream is complete |
| Metrics.NextStreamMessageSpec | imasterytracker/state.py:260-268 | the fixed "all complete" message appears exactly when no stream is unfinished; otherwise the message is the earliest unfinished stream's name, ": ", its remaining count (at least 1) with its label, and "to go", reading "1 milestone to go" exactly when one remains |
| Metrics.NamedMessage | imasterytracker/state.py:265-267 | the per-stream message is never the fixed one; it is the name, ": ", then the remaining count with its label and "to go" |
| Metrics.MilestoneLabel | imasterytracker/state.py:266 | the label is "milestone" exactly when one milestone remains |
| Metrics.ToGoSingular | imasterytracker/state.py:265-267 | the count and label read "1 milestone to go" exactly when one remains |
| Metrics.NextStreamMessage | imasterytracker/state.py:260-268 | the fixed message exactly when no stream has milestones to go |
| Metrics.TrendLevel | imasterytracker/state.py:270-279 | the top band exactly from 75, the second exactly in [40, 75), the third exactly in (0, 40), the last at or below 0 |
| Metrics.MilestoneTrendMessage | imasterytracker/state.py:270-279 | each completion band gets its own message: from 75, in [40, 75), in (0, 40), and at or below 0 |
| Metrics.TrendMonotone | imasterytracker/state.py:270-279 | more completion never earns a lower message |
| Metrics.HabitsCompletedToday | imasterytracker/state.py:234-237 | counts habits last completed today; all or none exactly when every or no habit was |
| Metrics.HabitConsistencyCopy | imasterytracker/state.py:252-258 | the invitation appears exactly when there are no habits |
| Metrics.HabitCopyReadsBack | imasterytracker/state.py:257-258 | the copy is a numeral for the habits logged today, " of ", a numeral for the number of habits, and " rituals logged today" |
| Metrics.ReflectionsThisWeek | imasterytracker/state.py:247-250 | counts entries from the last seven days; all exactly when every entry is that recent |
| Metrics.Newest | imasterytracker/state.py:187-193 | the newest row: no row was created after it |
| Metrics.LatestJournalTitle | imasterytracker/state.py:281-286 | the fixed text without entries, else the title of a newest entry |
| Metrics.Preview | imasterytracker/state.py:293-296 | at most 140 characters; unchanged up to 140; otherwise a prefix of at most 137 characters, right-stripped, plus "..." |
| Metrics.LatestJournalPreview | imasterytracker/state.py:288-296 | the fixed text without entries, else the preview of a newest entry's stripped reflection, at most 140 characters |
| Dashboard.FormatStateError | imasterytracker/state.py:533-537 | the toast is the first location part with underscores turned to spaces and capitalised (first character not lower case, the rest not upper case), then ": ", the message and "." |
| Dashboard.LocText | imasterytracker/state.py:535-537 | str() of a location part: a key is itself, an index is a numeral that reads back as the index |
| Dashboard.Or | imasterytracker/state.py:388 | Python's `s or default`: the value, or the default when the value is empty |
| Dashboard.ChooseColor | imasterytracker/state.py:333 | a given non-empty colour is kept; otherwise the colour comes from the palette |
| Dashboard.Clamp | imasterytracker/state.py:345-348 | the new count lies in [0, total]; a value already in range is kept |
| Dashboard.Toggled | imasterytracker/state.py:402-405 | a check-in made today is cleared; anything else becomes today |
| Dashboard.ToggleTwice | tests/test_state_events.py:43-58 | two flips on one day restore a check-in made today, and otherwise leave no check-in |
| Dashboard.ImportPayload | imasterytracker/state.py:454-457 | an already validated payload is taken as it is; a raw one is validated |
| Dashboard.StoreStream | imasterytracker/state.py:327-336 | the stream is stored with the next id and a colour from ColorFor |
| Dashboard.StoreHabit | imasterytracker/state.py:385-392 | the habit is stored with the next id; an empty cadence becomes "Daily" |
| Dashboard.StoreEntry | imasterytracker/state.py:442-449 | the entry is stored with the next id; an empty mood becomes "Curious" |
| Dashboard.ExportOf | imasterytracker/state.py:500-519 | the export holds every row of every table as its read model, in table order |
| Dashboard.ExportAfterReplace | tests/test_state_events.py:71-96 | exporting after a replace gives back the imported records, in order, with defaults filled in and each record's own creation time |
| Dashboard.LastIsNewest | imasterytracker/state.py:187-193 | when the last row is strictly newer than every other, it is the newest |
| Dashboard.LastStoredIsNewest | imasterytracker/state.py:490-497 | entries stored with increasing clock readings: the last stored is the newest, and it carries the payload's last title |
| Dashboard.ImportedLatestEntry | imasterytracker/state.py:281-286 | with a clock that moves forward, the latest reflection after an import is the payload's last journal entry |
| Dashboard.DashboardState.constructor | imasterytracker/state.py:76-93 | modals closed, forms at their defaults, no toast |
| Dashboard.DashboardState.OpenStreamModal | imasterytracker/state.py:305-306 | only the stream modal flag changes |
| Dashboard.DashboardState.CloseStreamModal | imasterytracker/state.py:308-313 | the modal closes and the stream form returns to its defaults |
| Dashboard.DashboardState.OpenHabitModal | imasterytracker/state.py:365-366 | only the habit modal flag changes |
| Dashboard.DashboardState.CloseHabitModal | imasterytracker/state.py:368-372 | the modal closes and the habit form returns to its defaults |
| Dashboard.DashboardState.OpenJournalModal | imasterytracker/state.py:422-423 | only the journal modal flag changes |
| Dashboard.DashboardState.CloseJournalModal | imasterytracker/state.py:425-429 | the modal closes and the journal form returns to its defaults |
| Dashboard.DashboardState.Reject | imasterytracker/state.py:323-325 | a rejection sets only the toast, to the formatted first issue |
| Dashboard.DashboardState.ClearToast | imasterytracker/state.py:530-531 | only the toast is cleared |
| Dashboard.DashboardState.AddStream | imasterytracker/state.py:315-338 | an invalid form only sets the toast; a valid one is stored and committed, the modal is reset and the toast says so |
| Dashboard.DashboardState.SettleStream | imasterytracker/state.py:323-338 | the outcome of a validated or rejected stream form |
| Dashboard.DashboardState.AcceptStream | imasterytracker/state.py:327-338 | the stream is appended and committed; form reset; toast set |
| Dashboard.DashboardState.UpdateStreamProgress | imasterytracker/state.py:340-351 | an unknown id changes nothing; otherwise only that stream's completed count moves by delta, clamped to [0, total] |
| Dashboard.DashboardState.RemoveStream | imasterytracker/state.py:353-360 | an unknown id changes nothing, toast included; otherwise exactly that stream is deleted and committed |
| Dashboard.DashboardState.AddHabit | imasterytracker/state.py:374-394 | an invalid form only sets the toast; a valid one is stored with an empty cadence becoming "Daily" |
| Dashboard.DashboardState.AcceptHabit | imasterytracker/state.py:385-394 | the habit is appended and committed; form reset; toast set |
| Dashboard.DashboardState.ToggleHabit | imasterytracker/state.py:396-408 | an unknown id changes nothing; otherwise only that habit's check-in flips |
| Dashboard.DashboardState.RemoveHabit | imasterytracker/state.py:410-417 | an unknown id changes nothing; otherwise exactly that habit is deleted |
| Dashboard.DashboardState.AddJournalEntry | imasterytracker/state.py:431-451 | only an empty title is replaced by the default before validation; a blank one is rejected |
| Dashboard.DashboardState.SubmitEntry | imasterytracker/state.py:438-451 | the outcome of a validated or rejected journal form |
| Dashboard.DashboardState.AcceptEntry | imasterytracker/state.py:442-451 | the entry is appended and committed; form reset; toast set |
| Dashboard.DashboardState.RemoveJournalEntry | imasterytracker/state.py:521-528 | an unknown id changes nothing; otherwise exactly that entry is deleted |
| Dashboard.DashboardState.ImportWorkspace | imasterytracker/state.py:453-463 | an invalid payload only sets the toast and touches no table; a valid one replaces the workspace |
| Dashboard.DashboardState.SettleImport | imasterytracker/state.py:458-463 | the outcome of a validated or rejected import |
| Dashboard.DashboardState.ReplaceWorkspace | imasterytracker/state.py:465-498 | all rows are deleted and committed, then the payload's records are added in order, each with its own clock reading (streams, habits, entries), and committed again |
| Dashboard.DashboardState.AppendStreams | imasterytracker/state.py:472-481 | the emptied stream table ends up holding the payload's streams in order, with fresh ids, the i-th created at clock reading start + i |
| Dashboard.DashboardState.AppendHabits | imasterytracker/state.py:482-489 | the emptied habit table ends up holding the payload's habits in order, cadence defaulted, the i-th created at clock reading start + i |
| Dashboard.DashboardState.AppendEntries | imasterytracker/state.py:490-497 | the emptied journal table ends up holding the payload's entries in order, mood defaulted, the i-th created at clock reading start + i |
| Dashboard.DashboardState.ExportWorkspace | imasterytracker/state.py:500-519 | the export is the read-out of the current tables |
| Api.PathIdRoundTrip | imasterytracker/api.py:71 | an id printed into the path is read back |
| Api.PathId | imasterytracker/api.py:71 | an absent parameter is 0; a present one is read exactly when, after stripping, it is ASCII digits or a sign and digits; digits read as their value |
| Api.LastField | imasterytracker/api.py:175-176 | "payload" without a location; otherwise the last part, a key as itself and an index as a numeral reading back as it |
| Api.ImportDetail | imasterytracker/api.py:174-179 | the 400 detail is the last location part with underscores turned to spaces and title-cased, then ": " and the message |
| Api.TitledFieldHasNoUnderscore | imasterytracker/api.py:177 | the reported field contains no underscore |
| Api.NameIssueDetail | tests/test_api.py:35-41 | an issue on a stream's name is reported as "Name: " and the message |
| Api.ImportedToastMatches | imasterytracker/api.py:183 | the dashboard's success toast starts with the prefix the handler checks |
| Api.ListStreams | imasterytracker/api.py:40-47 | 200 with every stream row read out, in table order |
| Api.ListHabits | imasterytracker/api.py:84-91 | 200 with every habit row read out, in table order |
| Api.ListJournals | imasterytracker/api.py:122-129 | 200 with every journal row read out, in table order |
| Api.ExportWorkspace | imasterytracker/api.py:164-166 | 200 with the export of the current tables |
| Api.CreateStream | imasterytracker/api.py:50-67 | an invalid body is an uncaught error (500) with no change; a valid one is stored with a fresh id and palette colour, committed, and echoed with 201 |
| Api.StoreAndEchoStream | imasterytracker/api.py:53-67 | the stored row is echoed back as its read model |
| Api.CreateHabit | imasterytracker/api.py:94-105 | as for streams; an empty cadence is stored as "Daily" |
| Api.StoreAndEchoHabit | imasterytracker/api.py:97-105 | the stored row is echoed back as its read model |
| Api.CreateJournalEntry | imasterytracker/api.py:132-147 | as for streams; an empty mood is stored as "Curious" |
| Api.StoreAndEchoEntry | imasterytracker/api.py:135-147 | the stored row is echoed back as its read model |
| Api.DeleteStream | imasterytracker/api.py:70-81 | a path id the model cannot read (see Api.PathId) gives 500; an unknown id gives 404 "Stream not found" and no change; otherwise 204, the row is gone, one commit |
| Api.DeleteHabit | imasterytracker/api.py:108-119 | as for streams, with "Habit not found" |
| Api.DeleteJournalEntry | imasterytracker/api.py:150-161 | as for streams, with "Journal entry not found" |
| Api.ImportWorkspace | imasterytracker/api.py:169-185 | an invalid payload gives 400 with the formatted first issue and no change; a valid one gives 202 and replaces the workspace with two commits |
| Api.ApplyImport | imasterytracker/api.py:181-185 | the dashboard import of a validated payload always reports success, so the handler answers 202 |
| Api.EmptyNameImportRejected | tests/test_api.py:35-41 | the test's request is answered 400 with a detail mentioning "Name" |
| ErrorMonitoring.NormaliseError | scripts/error-monitor.js:92-132 | a string is its own message with no stack; an object with a string message keeps it and its string stack; an object without one gives its JSON text and no stack; an Error keeps a non-empty message (else "Unknown error") and has a stack exactly when its stack is non-empty; anything else, or an object JSON cannot render, is "Unknown error" |
| ErrorMonitoring.FormatMessage | scripts/error-monitor.js:134-140 | the prefix alone exactly when the trimmed message is empty; otherwise the prefix, ": " and the trimmed message |
| ErrorMonitoring.PrefixFor | scripts/error-monitor.js:77 | the rejection prefix exactly for type "unhandledrejection", else the error prefix |
| ErrorMonitoring.Stamp | scripts/error-monitor.js:67-70 | an existing timestamp is kept; one is added only when absent |
| ErrorMonitoring.KeepLast | scripts/error-monitor.js:71-74 | a log within the limit is unchanged; a longer one is cut to exactly the limit |
| ErrorMonitoring.KeepLastIsSuffix | scripts/error-monitor.js:72-74 | what is kept is the newest part, in arrival order |
| ErrorMonitoring.KeepLastAppend | scripts/error-monitor.js:71-74 | trimming after every push keeps the same entries as trimming the whole history |
| ErrorMonitoring.Admit | scripts/error-monitor.js:26-36 | a record is held back exactly when its key equals the last key within the window; either way the window moves to this key and time |
| ErrorMonitoring.KeyOf | scripts/error-monitor.js:27 | the key is the message, "|", then the stack or "" |
| ErrorMonitoring.KeyInjective | scripts/error-monitor.js:27-29 | for messages without "|", two entries share a key exactly when their messages and their stacks (a missing one as "") agree |
| ErrorMonitoring.Replay | scripts/error-monitor.js:26-36 | one flag per record of a run |
| ErrorMonitoring.BurstIsSilent | scripts/error-monitor.js:29-31 | within a burst of one key, each record closer than the window to the previous one is silent, however long the burst |
| ErrorMonitoring.BurstNotifiesOnce | scripts/error-monitor.js:26-36 | a fresh monitor announces only the first record of such a burst |
| ErrorMonitoring.RepeatedFailureTimeline | tests/error_monitor_test.js:21-46 | at 0, 200 and 1500 ms with a 1000 ms window, the second record is silent and the others announced |
| ErrorMonitoring.Monitor.constructor | scripts/error-monitor.js:4-24 | an empty log, no notifications, a fresh window |
| ErrorMonitoring.Monitor.ShouldNotify | scripts/error-monitor.js:26-36 | the decision and the new window are those of Admit |
| ErrorMonitoring.Monitor.Push | scripts/error-monitor.js:71-74 | the log becomes the last maxStored of the old log plus the entry |
| ErrorMonitoring.Monitor.Announce | scripts/error-monitor.js:76-82 | notify receives the formatted message exactly when the entry is announced and a notify function exists; without a listening target every entry is announced |
| ErrorMonitoring.Monitor.Record | scripts/error-monitor.js:65-90 | every record is stored, announced or not; the log keeps the newest maxStored entries in order; the stamped entry is returned |
| ErrorMonitoring.Monitor.HandleError | scripts/error-monitor.js:40-44 | the normalised error is recorded with type "error" |
| ErrorMonitoring.Monitor.HandleRejection | scripts/error-monitor.js:46-50 | the normalised reason is recorded with type "unhandledrejection" |
| ErrorMonitoring.RejectionNotice | tests/error_monitor_test.js:69-90 | a rejection's notification starts with "Unhandled promise rejection" |
| ErrorMonitoring.RepeatedFailureScenario | tests/error_monitor_test.js:21-46 | three identical failures at 0, 200 and 1500 ms are all stored and announced twice |
| ErrorMonitoring.CappedLogScenario | tests/error_monitor_test.js:48-67 | with room for two, three records leave the second and third, in order |
| BrowserState.MergeWithDefaults | scripts/state.js:92-103 | each list comes from the data only when it is an array, else from the fallback; other keys of the data override; a non-object contributes nothing; when neither side's extra keys name a modelled key, the result's do not either |
| BrowserState.MergeEmpty | scripts/state.js:92-103 | merging an object without keys gives the fallback |
| BrowserState.MergeSaved | scripts/state.js:92-103 | a state merged from its own saved document comes back unchanged |
| BrowserState.GetStorage | scripts/state.js:161-184 | storage is used exactly when it exists, has getItem, setItem and removeItem, and the probe write succeeds |
| BrowserState.PersistCalls | scripts/state.js:109-184 | one persist calls setItem twice on usable storage (probe and state) and never without storage |
| BrowserState.LoadState | scripts/state.js:73-90 | the defaults when storage is unusable, nothing is saved or the text does not parse; otherwise the saved document merged over the defaults |
| BrowserState.IncompleteStorageIgnored | scripts/state.js:168-174 | storage missing any of the three methods is never used, and not even probed |
| BrowserState.SavedStateReloads | scripts/state.js:73-119 | what persist writes is what the next load yields |
| BrowserState.StateStore.Load | scripts/state.js:71-90 | the store starts from the loaded state, with one probe write when the methods exist |
| BrowserState.StateStore.Persist | scripts/state.js:109-119 | the state is written under the storage key when storage is usable, and nothing otherwise |
| BrowserState.StateStore.Mutate | scripts/state.js:121-130 | reports a change and persists exactly when the draft differs from the state; otherwise neither state nor storage changes |
| BrowserState.StateStore.Replace | scripts/state.js:132-136 | the state becomes the data merged over the defaults, and is persisted |
| BrowserState.StateStore.Reset | scripts/state.js:138-142 | the state becomes the defaults, and is persisted |
| BrowserState.MutateTwice | scripts/state_test.js:63-87 | running the same producer again on its own result reports no change and writes nothing |
| BrowserApp.FindFirst | scripts/app.js:320-321 | Array.find by id, used for habits, streams and milestones: the index of the first element with the id, or none has it |
| BrowserApp.CheckHabit | scripts/app.js:368-379 | checked today already: only the mark is set; last done yesterday: streak + 1; otherwise streak 1; the last two record today |
| BrowserApp.UncheckHabit | scripts/app.js:380-382 | only the mark is cleared; every other field, streak and last completion included, stays |
| BrowserApp.CheckTwice | scripts/app.js:368-372 | checking twice on one day counts once |
| BrowserApp.RecheckSameDay | scripts/app.js:368-382 | uncheck then check on the same day restores the checked habit without counting the streak twice |
| BrowserApp.ToggleHabit | scripts/app.js:362-383 | an unknown id leaves the draft as it is; otherwise only the first matching habit is checked or unchecked |
| BrowserApp.HandleHabitToggle | scripts/app.js:354-385 | a box without a habit id does nothing; otherwise the toggle runs through mutate, persisting only on change; on a change the new state is the written document |
| BrowserApp.SyncHabits | scripts/app.js:389-393 | every habit's mark says whether it was done today, nothing else changes, and habits already in sync come back unchanged |
| BrowserApp.SyncHabitCompletion | scripts/app.js:387-394 | after the sync every mark agrees with today, and the state changes exactly when some mark was out of date; on a change the new state is the written document |
| BrowserApp.NonBlankLines | scripts/app.js:258-261 | the kept lines are non-empty with no whitespace at either end |
| BrowserApp.NonBlankLine | scripts/app.js:258-261 | one line gives its trimmed text exactly when that is not empty, and nothing otherwise |
| BrowserApp.NonBlankLinesAppend | scripts/app.js:258-261 | lines are judged one by one: the filter distributes over concatenation, so the result is the trimmed non-blank lines in order |
| BrowserApp.MilestoneLines | scripts/app.js:257-260 | every milestone title is non-empty, holds no line break and has no whitespace at either end |
| BrowserApp.NoBlankLineDropped | scripts/app.js:258-261 | when no line is blank, every line is kept, trimmed, in order |
| BrowserApp.NewStream | scripts/app.js:255-272 | the new stream has the trimmed name and focus, the date or today, the note, and one incomplete milestone per non-blank line |
| BrowserApp.HandleStreamSubmit | scripts/app.js:245-282 | a blank name changes nothing, storage included; otherwise the new stream goes first, the others follow in order, and the new state is the written document |
| BrowserApp.WithoutStream | scripts/app.js:348-350 | no stream with the id survives, nothing new appears, and nothing changes exactly when no stream matches |
| BrowserApp.WithoutStreamOne | scripts/app.js:349 | a single stream survives exactly when it does not have the id |
| BrowserApp.WithoutStreamAppend | scripts/app.js:349 | streams are judged one by one: removal distributes over concatenation, so the survivors are the others, in order |
| BrowserApp.WithoutStreamKeeps | scripts/app.js:348-350 | every stream without the id is kept |
| BrowserApp.RemoveIdempotent | scripts/app.js:348-350 | removing twice removes nothing more |
| BrowserApp.HandleRemoveStream | scripts/app.js:342-352 | an empty id does nothing; otherwise the state changes exactly when a stream had the id; on a change the new state is the written document |
| BrowserApp.SetMilestoneChangesOne | scripts/app.js:319-325 | only the first stream with the id can change, and in it only the first milestone with the id, only in its complete flag; every other stream (a later one sharing the id included) and milestone is kept |
| BrowserApp.SetMilestoneUnknown | scripts/app.js:319-325 | an unknown stream or milestone leaves the draft as it is |
| BrowserApp.HandleStreamCheckbox | scripts/app.js:313-327 | a box without a milestone id does nothing; otherwise the milestone producer runs through mutate, and the state changes, and is written as the new document, exactly when the producer changed it |
| BrowserApp.SetStreamNote | scripts/app.js:333-339 | the first stream with the id takes the text as its note; an unknown id changes nothing |
| BrowserApp.SameNoteUnchanged | scripts/app.js:333-339 | typing the note a stream already has leaves the state as it is |
| BrowserApp.NewEntry | scripts/app.js:288-300 | the entry has the given id, the form's date or today, and the headline, focus and takeaways each with the whitespace at both ends, and only that, removed |
| BrowserApp.HandleStreamNoteInput | scripts/app.js:329-340 | the state changes exactly when a stream with the id had a different note, and then the new state is the written document |
| BrowserApp.HandleJournalSubmit | scripts/app.js:284-311 | the entry is prepended, blank fields and all, so the journal grows by one, and the new state is the written document |
| BrowserApp.EscapeHtml | scripts/app.js:478-486 | the output contains no <, >, " or ' |
| BrowserApp.EscapeIsPerChar | scripts/app.js:478-486 | because & is replaced first, the chain equals escaping each character on its own |
| BrowserApp.EscapeAppend | scripts/app.js:478-486 | escaping distributes over concatenation |
| BrowserApp.EscapeOne | scripts/app.js:480-485 | one character is escaped to its entity, or kept |
| BrowserApp.EscapeRoundTrip | scripts/app.js:478-486 | escaping loses nothing: the text is read back from the output |
| BrowserApp.DescribeDueDate | scripts/app.js:458-469 | "Open" without a difference; "Yesterday", "Today" and "Tomorrow" exactly for -1, 0 and 1; "N days ago" below -1; "Due in N days" above 1 |
| BrowserApp.DueDateInjective | scripts/app.js:458-469 | different day differences are described differently |
| BrowserApp.DoneCount | scripts/app.js:95-98 | the completed milestones of a stream are at most all of them, and all exactly when every one is complete |
| BrowserApp.TotalMilestones | scripts/app.js:94 | the milestones of all streams together; 0 exactly when every stream has none |
| BrowserApp.CompletedMilestones | scripts/app.js:95-98 | the completed milestones of all streams together, never more than all milestones |
| BrowserApp.CompletedBounds | scripts/app.js:94-98 | completed milestones never outnumber milestones, and are equal exactly when every milestone is complete |
| BrowserApp.RoundHalfUp | scripts/app.js:99 | Math.round of a non-negative ratio: the nearest integer, halves rounding up |
| BrowserApp.RoundUpInRange | scripts/app.js:99 | a rounded ratio of a numerator in [0, k·den] lies in [0, k], is k at the top and 0 at the bottom |
| BrowserApp.PercentBounds | scripts/app.js:99 | the percentage lies in [0, 100]; it is 100 when all milestones are complete and 0 when none is or there are none |
| BrowserApp.CompletionPercent | scripts/app.js:99 | at most 100; with milestones, the nearest integer to the completed share times 100, halves rounding up |
| BrowserApp.ActiveHabits | scripts/app.js:100 | counts habits marked done today: at most all of them, all exactly when every habit is marked, none exactly when none is |
| BrowserApp.OverviewFigures | scripts/app.js:103-106 | the padded stream and habit figures read back as the counts |

## Left out

- Code and specification differ in a few places; the model follows the code:
  - `create_stream`, `create_habit` and `create_journal_entry` validate outside any `try`. An invalid body is therefore an uncaught error, which the model answers with 500 rather than 400.
  - `_replace_workspace` commits the deletions before it adds the new rows, so an import makes two commits.
  - `persist` probes storage with `setItem` before writing the state, so one persist makes two `setItem` calls (`PersistCalls`). `scripts/state_test.js` counts one per persist.
- Databases: sessions, transactions and SQL ordering are not modelled. Tables are in-memory sequences in insertion order, and ids come from per-table counters that are never reused. A real SQLite table may reuse the highest id after a delete.
- Dates and clocks: `datetime`, timezones, `Date` parsing and ISO formatting are parameters (`now`, the import clock, `today`, `yesterday`, the day difference). `formatDate` and `toLocaleDateString` are not modelled.
- Floating point: Python `round` and JS `Math.round` are modelled on exact rationals with their tie rules. Float error at ties is not captured.
- Metrics.Preview: does not model Unicode whitespace in `rstrip`. Throughout, whitespace is ASCII space, tab, newline, carriage return, vertical tab and form feed.
- Schemas: pydantic type coercion is reduced to integers given as numbers or numerals. Strict-mode errors, floats such as "5.0", underscores in numerals, non-string values for string fields and pydantic's full error list are not modelled. Only the first issue, which is the one the code reads, is kept in order.
- JSON: a document is the value it denotes. `JSON.stringify` equality in `mutate` is structural equality, and key order and number formatting are not modelled. `clone` copies a value, and values have no identity, so "reset returns a fresh object each time" is outside the model.
- BrowserState.MergeWithDefaults: does not model `Object.assign` on a non-object source such as a string or an array, which would copy indexed characters. A parsed non-object counts as contributing no keys.
- BrowserState.StateStore.Persist: does not model a `setItem` that throws (quota exceeded). It is caught and logged, and storage then keeps the old value.
- `crypto.randomUUID` and `Math.random` ids are the `ids` function and id parameters. The model does not assume fresh ids are distinct.
- DOM, rendering, dialogs, `form.reset()`, focus, the theme toggle, `handleExport`, `handleImport` (file reading and `alert`), `handleReset` (`confirm`), event-listener wiring and `dispose`, and `console` logging are all left out.
- ErrorMonitoring.Monitor.Record: takes a string message. A non-string message, where `String()` and the `?? "Unknown error"` default matter, is not modelled.
- The starter contents of `defaultState` and of `_seed_defaults` are not modelled. The defaults are a parameter of the store.
- The hero sentence of `renderOverview` (plural suffixes), the journal count and the Reflex component tree of `imasterytracker/app.py` are not modelled.
- Api.PathId: reads a path id as an optional sign and ASCII digits around ASCII whitespace. Python's `int()` also accepts underscores between digits ("1_0"), non-ASCII decimal digits and Unicode whitespace; for such ids the model answers 500 where the source would look the row up (404 or 204).
- The creation clock of an import is a function from reading number to time; `Increasing` is assumed only by the lemmas about the newest entry. `_utcnow` may return equal readings for rows created in quick succession, and the model leaves the order of such ties to `Newest`.
- `scripts/sidebar.js`, `scripts/ui.js`, `scripts/main.js`, the root `app.js`, migrations and configuration are not part of this model.
