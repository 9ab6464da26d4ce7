# Workshop registration widget — a verified model of its logic

The repository is a series of weekly versions of one small browser page. The page lists
workshops and keeps a registration list (the *ledger*) of `(userName, workshopId)` pairs,
filled through a form. From week 14 on, a registration can be cancelled through a
confirmation dialog that asks a mock endpoint for permission. Week 15 adds start and end
times to the workshops, a status label per workshop, and a fixed registration window that
gates the form. This project models the logic of the page without the DOM. It covers the
window gate, the form's validator and the append to the ledger, the cancellation flow with
its single pending slot, the status label, and the catalog lookup with its title fallback.

Instants are integer milliseconds since the epoch. The handlers that read the clock take
`now` as a parameter.

Layout, one module per file:

- `wrappers.dfy`: `Option`, which stands for JavaScript's `null`/`undefined`.
- `text.dfy`: `String.prototype.trim` over the full ECMAScript whitespace set.
- `catalog.dfy`: the `Workshop` record, `findWorkshopById` and the title fallback.
- `schedule.dfy`: the window gate `isRegistrationOpen`, the fixed window and the status chain.
- `ledger.dfy`: the `Registration` entry, the validator, the append, `splice`, and the ledger invariant (no pair twice, every entry well formed).
- `cancel_flow.dfy`: `fakeCancelApi` and the confirmation state machine as functions on a `State` value. Also the user events, and the invariants of every reachable state.
- `week12.dfy` … `week15.dfy`: each week's module-level variables as fields of a class `App`. Each handler is a method, proved to perform the matching transition of the modules above.

## Model

| member | source | states |
|---|---|---|
| `Text.Trim` | self-practice/week15/main.js:236 | the trimmed name starts and ends with a non-whitespace character and is no longer than the input |
| `Text.TrimIsInfix` | self-practice/week15/main.js:236 | the trimmed name is a contiguous part of the input, with only whitespace before and after it |
| `Text.TrimCharacterised` | self-practice/week15/main.js:236 | reference definition: for any split of the input into blank prefix, core (empty or with non-whitespace ends) and blank suffix, trimming yields that core |
| `Text.TrimEmptyIffBlank` | self-practice/week15/main.js:247-250 | the trimmed name is empty exactly when the input is all whitespace |
| `Text.TrimIdempotent` | self-practice/week15/main.js:236 | trimming twice equals trimming once |
| `Catalog.FindWorkshopById` | self-practice/week15/main.js:15-17 | nothing is found exactly when no workshop has the id; a found workshop is in the catalog and has that id |
| `Catalog.FindReturnsFirstMatch` | self-practice/week13/main.js:6-8 | the lookup returns the first workshop with the id, not a later one |
| `Catalog.DisplayTitle` | self-practice/week15/main.js:211-213 | the row shows the title of the first workshop with the id, and the raw workshop id when there is none |
| `Schedule.IsRegistrationOpen` | self-practice/week15/main.js:19-21 | registration is open exactly when `openTime <= now <= closeTime` |
| `Schedule.RegistrationWindowSpan` | self-practice/week15/main.js:10-13 | the fixed window opens at 2025-12-01 08:00 (UTC+7) and closes 30 d 15 h 59 min 59 s later, at 2025-12-31 23:59:59 (UTC+7); its opening instant is itself open |
| `Schedule.RegistrationOpenIsClosedInterval` | self-practice/week15/main.js:19-21 | both ends of a non-empty window `[openTime, closeTime]` are open; one millisecond outside either end is closed; any instant between two open instants is open |
| `Schedule.WorkshopStatus` | self-practice/week15/main.js:97-119 | each label stated without the order of the tests: UPCOMING without both times, or not yet ended and more than 24 h ahead; ENDED after the end; IN PROGRESS within `[start, end]`; STARTING SOON not ended and `0 < start - now <= 86 400 000` ms |
| `Schedule.StatusAdvancesWithTime` | self-practice/week15/main.js:108-118 | later instants never give an earlier label, whatever the start and end |
| `Schedule.StatusExamples` | self-practice/week15/main.js:100-119 | start 1 h ahead is STARTING SOON; started 1 h ago, ending in 1 h is IN PROGRESS; ended 1 h ago is ENDED; no schedule is UPCOMING; start 24 h + 1 ms ahead is UPCOMING |
| `Ledger.AlreadyRegistered` | self-practice/week15/main.js:256-258 | the scan answers true exactly when the pair is already in the ledger |
| `Ledger.CheckSubmission` | self-practice/week14/main.js:150-170 | first failing test wins: an all-whitespace name is MissingName whatever the workshop and ledger; otherwise an empty workshop id is MissingWorkshop; otherwise a pair already present is Duplicate; the result is never the window error |
| `Ledger.Submit` | self-practice/week13/main.js:124-132 | a refused submission leaves the ledger unchanged; an accepted one keeps every earlier entry in place and appends exactly one well-formed entry `(trim(name), workshopId)` that was not present |
| `Ledger.CheckSubmissionInWindow` | self-practice/week15/main.js:241-262 | outside the window the answer is RegistrationClosed whatever the name and workshop; inside it is the ungated validator's answer |
| `Ledger.SubmitInWindow` | self-practice/week15/main.js:241-264 | outside the window the ledger is unchanged; inside it the result is the ungated `Submit`; a refused submission leaves the ledger unchanged and an accepted one appends exactly one well-formed entry `(trim(name), workshopId)` that was not present, keeping every earlier entry in place |
| `Ledger.AppendKeepsInvariant` | self-practice/week12/main.js:120-128 | appending a well-formed pair that is not present keeps "no two equal pairs" and "every entry well formed" |
| `Ledger.SubmitKeepsInvariant` | self-practice/week15/main.js:256-264 | every submission, gated or not, keeps the ledger invariant |
| `Ledger.SubmitTwiceIsDuplicate` | self-practice/week14/main.js:164-172 | after an accepted submission the identical one is refused as Duplicate and changes nothing; the two together add exactly one entry |
| `Ledger.RegistrationAt` | self-practice/week15/main.js:273 | `registrations[pendingCancelIndex]`: nothing (JavaScript's `undefined`) exactly when the index is past the end; otherwise the entry at that index, which is in the ledger |
| `Ledger.RemoveAt` | self-practice/week15/main.js:288 | `splice(index, 1)`: one entry shorter; entries before the index keep their positions, later ones move down by one; the multiset loses exactly the removed entry |
| `Ledger.RemoveAtKeepsInvariant` | self-practice/week14/main.js:196 | removing an entry keeps the ledger invariant |
| `CancelFlow.FakeCancelApi` | self-practice/week15/main.js:32-40 | a missing registration is NOT_FOUND; one for `ws2` is CANNOT_CANCEL_PAST; every other one is accepted |
| `CancelFlow.OpenConfirmDialog` | self-practice/week15/main.js:43-49 | opening the dialog installs the confirm action and leaves the ledger and the pending index as they were |
| `CancelFlow.CloseConfirmDialog` | self-practice/week15/main.js:51-55 | closing the dialog removes the confirm action and leaves the ledger and the pending index as they were |
| `CancelFlow.RequestCancel` | self-practice/week15/main.js:218-223 | a cancel click leaves the ledger alone and sets the pending index and the confirm action |
| `CancelFlow.HandleConfirmCancel` | self-practice/week15/main.js:271-295 | no pending index: nothing changes and the endpoint is not asked. Otherwise the endpoint is asked about the entry at the index (absent past the end), and both halves of the slot end up empty. The entry is removed with `splice` only when the endpoint accepts; on any refusal the ledger is unchanged |
| `CancelFlow.DialogOk` | self-practice/week15/main.js:304-308 | OK does nothing without a confirm action and runs the confirmation when there is one |
| `CancelFlow.DialogCancel` | self-practice/week15/main.js:309-312 | dismissing keeps the ledger and empties both halves of the slot, whatever the state was |
| `CancelFlow.TransitionsKeepSlotConsistent` | self-practice/week15/main.js:43-55 | every transition keeps "an index is pending exactly when a confirm action is installed" |
| `CancelFlow.ConfirmKeepsLedgerInvariant` | self-practice/week15/main.js:278-291 | confirming, directly or through OK, keeps the ledger invariant |
| `CancelFlow.ConfirmOutcomes` | self-practice/week14/main.js:179-203 | an index past the end gives NOT_FOUND, and a `ws2` entry gives CANNOT_CANCEL_PAST; both leave the ledger unchanged. Any other entry is removed: the ledger becomes the entries before the index followed by those after it, one shorter |
| `CancelFlow.RequestOverwrites` | self-practice/week14/main.js:132-137 | a second cancel request replaces the first: one slot, no queue |
| `CancelFlow.RequestThenDismiss` | self-practice/week14/main.js:216-219 | requesting and then dismissing restores the ledger and empties the slot |
| `CancelFlow.Step` | self-practice/week15/main.js:297-313 | a form submission never touches the pending slot |
| `CancelFlow.StepKeepsConsistent` | self-practice/week14/main.js:205-220 | every user event keeps three facts: the ledger invariant holds, the slot is consistent, and a pending index points at an entry |
| `CancelFlow.RunKeepsConsistent` | self-practice/week15/main.js:297-313 | the same three facts hold after any sequence of events |
| `CancelFlow.ReachedConfirmIsNeverNotFound` | self-practice/week15/main.js:271-283 | in every state reachable from the start, confirming never answers NOT_FOUND |
| `CancelFlow.AliceRegisters` | self-practice/week15/main.js:241-264 | at 2025-12-15T12:00+07:00, "Alice" for ws1 is accepted into an empty ledger |
| `CancelFlow.AliceRegistersAgain` | self-practice/week15/main.js:256-262 | the same submission again is refused as Duplicate and changes nothing |
| `CancelFlow.AliceCancels` | self-practice/week15/main.js:271-295 | cancelling row 0 and pressing OK is accepted and empties the ledger |
| `Week12.FixedCatalogLookup` | self-practice/week12/main.js:3-31 | the fixed catalog has the distinct ids ws1, ws2, ws3; the lookup finds exactly these; rows show their titles, and the raw id for anything else |
| `Week12.App.constructor` | self-practice/week12/main.js:27 | the page starts with an empty ledger |
| `Week12.App.HandleRegisterSubmit` | self-practice/week12/main.js:100-133 | the form's error and new ledger are those of the ungated validator and append |
| `Week13.App.constructor` | self-practice/week13/main.js:3-4 | the page starts with an empty catalog and an empty ledger |
| `Week13.App.WorkshopsLoaded` | self-practice/week13/main.js:24-25 | a successful load replaces the catalog as a whole and leaves the ledger alone |
| `Week13.App.HandleRegisterSubmit` | self-practice/week13/main.js:104-137 | the form's error and new ledger are those of the ungated validator and append; the catalog is untouched |
| `Week13.App.RegistrationTitles` | self-practice/week13/main.js:91-101 | one title per row: the first matching workshop's title, or the raw workshop id when there is none |
| `Week14.App.constructor` | self-practice/week14/main.js:3-7 | the page starts with an empty catalog, an empty ledger and an empty pending slot (`CancelFlow.Initial`), a state satisfying `Valid()`: the ledger invariant and a pending index exactly when a confirm action is installed |
| `Week14.App.WorkshopsLoaded` | self-practice/week14/main.js:53-54 | a successful load replaces the catalog and leaves ledger and slot alone; keeps `Valid()` |
| `Week14.App.HandleRegisterSubmit` | self-practice/week14/main.js:144-177 | ungated validator and append; catalog and pending slot untouched; keeps `Valid()` |
| `Week14.App.OpenConfirmDialog` | self-practice/week14/main.js:25-31 | installs the confirm action, nothing else |
| `Week14.App.CloseConfirmDialog` | self-practice/week14/main.js:33-37 | removes the confirm action, nothing else |
| `Week14.App.CancelButtonClicked` | self-practice/week14/main.js:132-137 | performs `RequestCancel` in place; keeps `Valid()` |
| `Week14.App.HandleConfirmCancel` | self-practice/week14/main.js:179-203 | performs `HandleConfirmCancel` in place and returns the endpoint's answer; keeps `Valid()` |
| `Week14.App.DialogOkClicked` | self-practice/week14/main.js:211-215 | performs `DialogOk` in place; keeps `Valid()` |
| `Week14.App.DialogCancelClicked` | self-practice/week14/main.js:216-219 | performs `DialogCancel` in place; keeps `Valid()` |
| `Week15.App.constructor` | self-practice/week15/main.js:3-7 | the page starts with an empty catalog, an empty ledger and an empty pending slot (`CancelFlow.Initial`), a state satisfying `Valid()`: the ledger invariant and a pending index exactly when a confirm action is installed |
| `Week15.App.WorkshopsLoaded` | self-practice/week15/main.js:73-77 | a successful load replaces the catalog and leaves ledger and slot alone; keeps `Valid()` |
| `Week15.App.HandleRegisterSubmit` | self-practice/week15/main.js:230-269 | gated validator and append at instant `now`; catalog and pending slot untouched; keeps `Valid()` |
| `Week15.App.OpenConfirmDialog` | self-practice/week15/main.js:43-49 | installs the confirm action, nothing else |
| `Week15.App.CloseConfirmDialog` | self-practice/week15/main.js:51-55 | removes the confirm action, nothing else |
| `Week15.App.CancelButtonClicked` | self-practice/week15/main.js:218-223 | performs `RequestCancel` in place; keeps `Valid()` |
| `Week15.App.HandleConfirmCancel` | self-practice/week15/main.js:271-295 | performs `HandleConfirmCancel` in place and returns the endpoint's answer; keeps `Valid()` |
| `Week15.App.DialogOkClicked` | self-practice/week15/main.js:304-308 | performs `DialogOk` in place; keeps `Valid()` |
| `Week15.App.DialogCancelClicked` | self-practice/week15/main.js:309-312 | performs `DialogCancel` in place; keeps `Valid()` |

The form checks only that the workshop id is non-empty, not that it names a workshop in the
catalog (self-practice/week15/main.js:251-254); the model does the same.

## Left out

- All DOM work: element lookup and creation, `innerHTML`, listener wiring, the highlight toggle, the dialog's visibility, the detail pane and the reset of the form fields. The dialog's message text and the user-facing error strings are left out too; errors are the enumerations `RegError` and `CancelError`.
- The "Unknown error while cancelling." branch (self-practice/week15/main.js:284-285): the endpoint answers with only the two modelled codes, so that branch cannot be reached, and `CancelResponse` has no value for it.
- `loadWorkshops`: the `fetch`, the JSON decoding, the error path and the loading messages are network I/O. Only the assignment that replaces the catalog on success is modelled (`WorkshopsLoaded`).
- `Week15.App.WorkshopsLoaded`: takes records whose start and end are already instants. The conversion of the `start`/`end` strings with `new Date(...)` (self-practice/week15/main.js:73-77) depends on JavaScript's date-string parsing. Invalid dates (NaN, where every comparison is false) are not modelled; an absent time is `None`.
- `formatDateTimeLocal`, `toLocaleString` and `updateRegistrationWindowStatus`: locale and time-zone formatting of messages. The only decision the status message makes is `IsRegistrationOpen`.
- `Schedule.WorkshopStatus`: the source divides by 3 600 000 in floating point and compares the hours with 24 and 0. The model compares whole milliseconds with 86 400 000 and 0. The two agree for every integer difference a JavaScript date can hold.
- The real clock (`new Date()`): `now` is a parameter.
- self-practice/week15/datetime-demo.js and self-practice/week11/main.js are not part of this model. The first only prints date conversions; the second has no logic beyond the DOM.
- `CancelFlow.Step`: a click on a Cancel button for a row that is not in the current list does nothing. The page only renders buttons for the rows it lists, and it re-renders after every change to the ledger.
