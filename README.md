# Duck sightings table: a Dafny model

The application is one React file, `src/App.js`. It shows a table of duck
sightings fetched from a REST server and lets the user sort the table by
clicking a column header. A dialog creates a new sighting: it loads the known
species, keeps a draft of date, time, species, description and count,
validates the draft field by field, posts it, and resets itself after a
successful post.

This project models the logic in that file:

- **Sorting** (`SortOrder.dfy`, `Table.dfy`). `DuckTable` holds the rows
  (`ducks`), the active column (`sortColumn`, initially `"ID"`) and the
  direction (`sortDir`, `true` is ascending). `SortDataBy` carries the toggle
  rule. A click on the active column flips the direction; a click on any
  other column sorts ascending; a click with an `undefined` label changes
  nothing. The rows are reordered by lodash `orderBy` on the field named by
  the lower-cased column label. Lodash documents `orderBy` as a stable sort,
  so `OrderBy` is a stable insertion sort, and the model proves what that
  promise means. The result is a permutation of the input and is sorted in
  the chosen direction. For every key, the rows with that key keep their
  relative order. These facts fix the result uniquely (`SortedTiesUnique`).
- **Validation** (`Validation.dfy`). `ValidateDraft` builds the error map
  step by step, as `handleSubmit` does. There are five independent checks,
  and each failing field gets its fixed message. A submission goes ahead
  only when the map is empty.
- **Date and time text** (`DateFormat.dfy`, `Text.dfy`). `formatDate` gives
  `D.M.Y` with the month shifted to 1..12. `formatTime` gives `H:M`. No
  number is zero-padded. Reading the text back gives the same numbers.
- **Creation dialog** (`Dialog.dfy`). `DuckDialogButton` holds the open
  flag, the draft fields, the loaded species and the error map. Each handler
  states the whole new state, which shows what it leaves alone. Network
  results arrive as events: `OnSpeciesLoaded`, `OnCreateSucceeded`, and
  `DuckTable.OnSightingsFetched`.

Some behaviours a reader might expect do not happen in the code:

- After a list fetch the rows are stored in the server's order. The sort is
  not reapplied (`src/App.js:79`).
- Opening the dialog does not reset the draft (`src/App.js:159-161`).
- Dates are stored as `5.3.2020`, not padded to `DD.MM.YYYY`
  (`src/App.js:197-199`).
- An empty species list leaves the selection as it was, which is `""` at
  first (`src/App.js:149-153`).
- The error map changes only on submit. A field that is corrected is not
  cleared until the next submit.

## Model

| member | source | states |
|---|---|---|
| `SortOrder.OrderBy` | src/App.js:90 | orderBy's contract: the result is a permutation of the rows, is sorted on the key in the chosen direction, and keeps the relative order of rows with equal keys |
| `SortOrder.SortedTiesUnique` | src/App.js:90 | two sequences sorted the same way that keep the same per-key order are equal: the stable-sort contract leaves exactly one result |
| `SortOrder.OrderByUnique` | src/App.js:90 | any sorted reordering that keeps ties is exactly the one `OrderBy` returns |
| `SortOrder.OrderByAgain` | src/App.js:88-91 | sorting again on the same column, in either direction, forgets the previous order and equals sorting the original rows |
| `SortOrder.OrderBySortedUnchanged` | src/App.js:90 | rows already sorted on the key come back unchanged |
| `SortOrder.OrderByUnknownPath` | src/App.js:90 | a lower-cased label naming none of the five fields gives every row the same key, so all rows tie and the order does not change |
| `SortOrder.DescendingReversesAscending` | src/App.js:88-90 | when no two rows share a key, the descending order is the ascending order reversed |
| `SortOrder.KeyOfFields` | src/App.js:90 | the key a row gives for a lower-cased label: the number for `id`, `datetime` and `count`, the text for `species` and `description`, `undefined` for any other name |
| `Text.ToLower` | src/App.js:90 | lower-casing keeps the length and maps each character through `LowerChar` |
| `Table.IdHeaderPath` | src/App.js:103 | the "ID" label lower-cases to the field `id` |
| `Table.DateTimeHeaderPath` | src/App.js:104 | the "DateTime" label lower-cases to the field `datetime` |
| `Table.SpeciesHeaderPath` | src/App.js:105 | the "Species" label lower-cases to the field `species` |
| `Table.DescriptionHeaderPath` | src/App.js:106 | the "Description" label lower-cases to the field `description` |
| `Table.CountHeaderPath` | src/App.js:107 | the "Count" label lower-cases to the field `count` |
| `Table.NextSortDir` | src/App.js:88 | choosing the active column flips the direction; choosing any other column gives ascending |
| `Table.DuckTable.constructor` | src/App.js:54-61 | no rows; sorted on "ID", ascending |
| `Table.DuckTable.OnSightingsFetched` | src/App.js:68-79 | a successful fetch replaces the rows wholesale and keeps the sort column and direction |
| `Table.DuckTable.SortDataBy` | src/App.js:85-92 | `undefined` changes nothing. Otherwise the column becomes the chosen one, the direction flips on the active column and is ascending on another, and the rows become `orderBy` of the old rows: a permutation, sorted, ties kept. The rows stay a permutation of the fetched list |
| `Table.FirstClickOnId` | src/App.js:85-91 | on a fresh table (column "ID", ascending) the first click on "ID" sorts descending |
| `Table.ToggleTwiceRestores` | src/App.js:88-91 | after three clicks on one column, the direction and the rows are those the first click produced |
| `Validation.ErrorText` | src/App.js:32-38 | each field's fixed message, which is never empty, so a failing field always shows text |
| `Validation.SpeciesKnown` | src/App.js:211 | the selection passes exactly when it equals one of the loaded entries; an `undefined` selection never passes |
| `Validation.CountFails` | src/App.js:215 | the count passes exactly when it is a number of at least 1; NaN always fails |
| `Validation.Errors` | src/App.js:205-215 | the keys of the error map are exactly the failing fields, each mapped to its own message |
| `Validation.Mark` | src/App.js:207 | one ternary step: the field has an entry, holding its own message, exactly when its check fails; every other entry is kept |
| `Validation.ValidateDraft` | src/App.js:204-215 | `date` fails iff `""`, `time` iff `""`, species iff not in the loaded list, `description` iff `""`, count iff below 1 or NaN; each entry holds that field's message; the map equals `Errors` |
| `Validation.SubmitAllowedIff` | src/App.js:215-221 | the map is empty exactly when all five checks pass |
| `Validation.UnknownSpeciesReported` | src/App.js:211 | a species missing from the list always gives the species error, whatever the other fields hold |
| `Validation.EmptyDraftAllErrors` | src/App.js:205-215 | an all-empty draft checked against an empty species list gets all five messages |
| `Validation.CountExamples` | src/App.js:215 | counts 0, -3 and NaN fail; 1, 500 and 1.5 pass |
| `Validation.BlankDescriptionPasses` | src/App.js:213 | a description of one blank passes: only `""` fails |
| `Text.NatToString` | src/App.js:198 | a number prints as decimal digits with no padding: it starts with `0` only when it is 0, and is one character long exactly when it is below 10 |
| `Text.IntToString` | src/App.js:198 | an integer prints as its digits with a `-` only when negative; the text is never empty and holds no `.` or `:`, so the separators of the date and time text can be found again |
| `Text.ParseIntToString` | src/App.js:198 | an integer's text reads back as the same integer |
| `DateFormat.FormatDate` | src/App.js:197-199 | the date text is never empty, so a picked date passes the date check |
| `DateFormat.FormatTime` | src/App.js:200-202 | the time text is never empty, so a picked time passes the time check |
| `DateFormat.FormatDateRoundTrip` | src/App.js:197-199 | the date text reads back to the day, the 0-based month and the year, so the month is printed shifted by one |
| `DateFormat.FormatTimeRoundTrip` | src/App.js:200-202 | the time text reads back to the hours and the minutes |
| `DateFormat.FormatDateExample` | src/App.js:197-199 | 5 March 2020 (month index 2) gives `5.3.2020` |
| `DateFormat.FormatTimeExamples` | src/App.js:200-202 | 14:30 gives `14:30` and 9:05 gives `9:5` |
| `DateFormat.DateTimeTextExample` | src/App.js:227 | the text handed to the date library for 5 March 2020 at 14:30 is `5.3.2020\|14:30` |
| `Dialog.FirstSpecies` | src/App.js:239 | the first loaded species, which passes the species check; `undefined` exactly when none are loaded |
| `Dialog.DuckDialogButton.constructor` | src/App.js:130-142 | closed, empty date/time/description, selection `""`, no species, count 1, no errors |
| `Dialog.DuckDialogButton.OnSpeciesLoaded` | src/App.js:144-153 | the list is stored. A non-empty list selects its first element; an empty list leaves the selection. Nothing else changes |
| `Dialog.DuckDialogButton.HandleOpen` | src/App.js:159-161 | only `open` changes, to true; the draft persists |
| `Dialog.DuckDialogButton.HandleClose` | src/App.js:163-165 | only `open` changes, to false |
| `Dialog.DuckDialogButton.HandleDateChange` | src/App.js:167-171 | only `date` changes, to the formatted date, which passes the date check |
| `Dialog.DuckDialogButton.HandleTimeChange` | src/App.js:173-177 | only `time` changes, to the formatted time, which passes the time check |
| `Dialog.DuckDialogButton.HandleSpeciesChange` | src/App.js:179-183 | only the selection changes, to `species[i]` (`undefined` out of range); it passes the species check iff `i` is in range |
| `Dialog.DuckDialogButton.HandleDescChange` | src/App.js:185-189 | only `description` changes |
| `Dialog.DuckDialogButton.HandleCountChange` | src/App.js:191-195 | only `count` changes |
| `Dialog.DuckDialogButton.HandleSubmit` | src/App.js:204-234 | the errors become the draft's error map and nothing else changes; a body is posted iff the map is empty, carrying the selected species, the description, `date + "\|" + time` and the count |
| `Dialog.DuckDialogButton.OnCreateSucceeded` | src/App.js:236-245 | the selection becomes the first species, date/time/description become `""`, the count 1, the dialog closes; the species list and errors stay |
| `Dialog.CreateMallardSighting` | src/App.js:204-247 | picking 5 March 2020 14:30, Mallard, "seen near pond", 2 posts exactly those values. After success the draft is back to the defaults with Mallard selected and the dialog closed |
| `Dialog.SubmitEmptyDraft` | src/App.js:204-223 | a submit with nothing entered, no species and a cleared count posts nothing and shows all five messages |

## Left out

- Network calls (`axios.get`, `axios.post`) and their console logging. A successful response is an event method (`OnSightingsFetched`, `OnSpeciesLoaded`, `OnCreateSucceeded`). A failed one changes no state, so it has no method.
- The refetch a successful create triggers. The dialog and the table are separate objects here, and the refetch is the table's `OnSightingsFetched` event.
- Rendering, theming, the arrow icons and the `App` wrapper. The header click's `event.target.innerText` is the `Option<string>` parameter of `SortDataBy`.
- The `moment(...).toISOString()` conversion. It depends on the time zone and a library. The posted body carries the text `date + "|" + time` that is passed to it.
- Turning server JSON into rows (`parseInt`, `new Date`) and `toLocaleString` display. Rows arrive with integer fields, and `datetime` is the millisecond count that `Date` values compare by. A NaN id or count is not modelled.
- The order of asynchronous `setState` callbacks. Each handler is one sequential step, and the error map is stored before it is checked.
- The internals of lodash `orderBy`. The model uses only its specification, a stable sort. Lodash's ordering of `undefined`, `null` and NaN against real values is not modelled; in one column every key has the same kind, and `Rank` only makes the order total. A key path naming none of the five fields gives all rows the same key, so they tie.
- SortOrder.KeyOf: reads only the five field names. lodash also reads a key path with `.` or `[` as a deep path (`species.length` would sort on the species length), and reads the shared inherited value for a name such as `constructor`; neither is modelled, because the five header labels contain no such character and name own fields.
- Text.ToLower: maps only `A`..`Z`. JavaScript's `toLowerCase` also lower-cases other Unicode letters, but the header labels are ASCII.
- SortOrder.TextLess: compares Unicode scalar values. JavaScript compares UTF-16 code units, which orders characters outside the Basic Multilingual Plane differently.
- Dialog.NewSighting: the posted `count` is the coerced number. The source stores and posts the text field's raw value (the number 1 until the field is edited, then the text), so the texts `2`, `2.0` and `02` post different bodies where the model posts the same one.
- Validation.CountFails: the count text's coercion to a number is a parameter (`CountValue`). `Num` holds an exact real; infinities and floating-point rounding are not modelled.
- DateFormat.Moment: its fields are the values of the `Date` getters. Their ranges (day 1..31, month 0..11, ...) are not constrained, because the formatting does not depend on them.
