# car-search-tool — a Dafny model of the booking dashboard and the daily report

The repository is a React front end for a car-rental operator. Two components hold
all of its logic.

- `CarSearchTool` (`src/App.js`) loads a bookings sheet and a maintenance log
  exported as CSV. It reconciles the vehicle registered with EJAR against the
  vehicle registered with INVYGO for every booking. It offers a free-text search,
  two toggles ("Show Mismatched Only" and "Show Ready to Switch Back") and an
  analytics panel that counts bookings by kind.
- `DailyBookingReport` (`src/report.tsx`) loads the same bookings sheet. It lists
  the bookings picked up on a chosen date and tallies the counted bookings per car
  model, with a TOTAL row.

The model is organised in these modules:

| module | file | what it holds |
|---|---|---|
| `Wrappers` | wrappers.dfy | `Option` and `Result` |
| `Text` | text.dfy | the JavaScript string built-ins the code relies on: the `\s` white-space class, ASCII `toLowerCase`, `trim`, `replace(/\s+/g, "")`, `split`, `replaceAll`, `includes`, and `!isNaN(Number(s))` as `IsNumeric` |
| `Seqs` | seqs.dfy | `filter`, `filter(...).length`, `findIndex`, and order-preserving subsequences |
| `Counters` | counters.dfy | the `counts[k] = (counts[k] \|\| 0) + 1` idiom and the sum of a counter's values |
| `Sheet` | sheet.dfy | the CSV-text-to-records conversion, modelled once (the source repeats it three times), and field access on records |
| `CarSearch` | carsearch.dfy | `normalize`, booking classification, the three mismatch tests, the first-match join with the maintenance log, the row colour, the search and filter views, and the analytics quantities |
| `Dashboard` | dashboard.dfy | class `CarSearchTool`: the component's state and the handlers that change it, with `getAnalytics` as a loop over the data |
| `DailyReport` | dailyreport.dfy | `pad`, the date key and `filteredByDate`, the `allCarCount` tally and its TOTAL, and class `DailyBookingReport` holding the report's state |

Records are `map<string, string>`. A column a record lacks is `undefined` in
JavaScript; the model writes it as `None` (`Sheet.Lookup`). `row[k] || ""` is
`Sheet.FieldOr`, and the truthiness of a possibly-undefined string is
`Sheet.Truthy`.

The three mismatch tests of `src/App.js` are kept apart, as written:

- the analytics counter at line 103 (`CountsAsMismatch`) skips rows with an empty
  booking and accepts any non-empty booking;
- the mismatch-only filter at line 144, the figure at line 172 and the row colour at
  line 329 (`IsMismatch`) require a numeric booking, and an empty booking is numeric;
- the ready-to-switch-back test at lines 158 and 270 (`IsReadyToSwitchBack`) does not
  require non-empty identifiers, so a row with no EJAR column can be ready without
  being a mismatch (`ReadyWithoutEjar`).

The report's test at `src/report.tsx:51` (`IsCountedBooking`) excludes empty
bookings.

Because of this difference, the analytics mismatch count is not an upper bound on
the rows the mismatch-only filter keeps. A row with an empty booking and two
different vehicles is kept by the filter but skipped by the counter
(`UnbookedRowIsFilteredNotCounted`). `MismatchFilterBound` states the bound that
does hold: the counter plus the unbooked rows with conflicting identifiers.

## Model

| member | source | states |
|---|---|---|
| Text.LowerChar | src/App.js:16 | an upper-case ASCII letter becomes the lower-case letter at the same place in the alphabet; every other character is kept |
| Text.ToLower | src/App.js:16 | `toLowerCase` keeps the length, lowers every upper-case ASCII letter to the same letter and keeps every other character, so no upper-case letter is left |
| Text.ToLowerIdentity | src/App.js:16 | lower-casing a string without upper-case letters changes nothing |
| Text.RemoveWhitespace | src/App.js:16 | `replace(/\s+/g, "")` leaves no white space, never lengthens, and leaves white-space-free text unchanged |
| Text.RemoveWhitespaceAppend | src/App.js:16 | removing white space distributes over concatenation |
| Text.RemoveWhitespaceKeeps | src/App.js:16 | removing white space keeps only characters of the original |
| Text.RemoveWhitespaceOfBlank | src/App.js:16 | a blank string loses every character |
| Text.RemoveInnerSpace | src/App.js:16 | one space between two white-space-free words disappears |
| Text.TrimStart | src/App.js:27 | `trimStart` returns a suffix, drops only white space, and stops at a non-white-space character |
| Text.TrimEnd | src/App.js:27 | `trimEnd` returns a prefix, drops only white space, and stops at a non-white-space character |
| Text.TrimKeepsSlice | src/App.js:27 | `trim` keeps a slice of the text with only white space before and after it, and the slice neither starts nor ends with white space |
| Text.TrimEmptyIff | src/App.js:27 | `cell.trim() === ""` holds exactly when every character of the cell is white space |
| Text.TrimIdentity | src/App.js:16 | `trim` leaves white-space-free text unchanged |
| Text.Split | src/App.js:25 | `split` on one character gives at least one piece, no piece contains the separator, and joining the pieces gives back the text |
| Text.SplitJoin | src/report.tsx:36 | `split` undoes `join` on separator-free pieces |
| Text.SplitNoSeparator | src/report.tsx:35 | text without the separator splits into itself |
| Text.SplitAtFirst | src/report.tsx:35 | splitting peels off the piece before the first separator |
| Text.SplitKeepsAbsent | src/App.js:25 | a character absent from the text is absent from every piece of its split |
| Text.ReplaceAll | src/report.tsx:35 | `replaceAll` keeps the length, puts the replacement wherever the replaced character was, and keeps every other character |
| Text.Contains | src/App.js:95-97 | `includes` finds the empty string in every string and never a longer string than the one searched |
| Text.IsNumeric | src/App.js:94 | `!isNaN(Number(s))` holds for every blank string, since `Number` reads it as 0 |
| Text.EmptyIsNumeric | src/App.js:141 | `Number("")` is 0, so the empty booking is numeric |
| Text.DigitsAreNumeric | src/App.js:94 | a string of digits is numeric |
| Text.NumericCharacters | src/App.js:94 | every character of a numeric string is a digit, a point, a sign or white space |
| Text.NumericIgnoresCase | src/report.tsx:51 | lower-casing a booking does not change whether it is numeric |
| Seqs.Filter | src/App.js:123-125 | `filter` keeps only elements that pass and every element that passes, never more elements than its input |
| Seqs.FilterMultiplicity | src/App.js:123-125 | `filter` keeps each passing element exactly as often as it occurs in its input, and no other element |
| Seqs.FirstIndex | src/App.js:154-156 | `find` returns the first element that passes, or nothing when none passes |
| Seqs.FirstIndexIs | src/App.js:26-28 | an index at which the predicate holds, with no earlier index where it holds, is what `find` returns |
| Seqs.FilterIsSubsequence | src/App.js:123-125 | a filter is an order-preserving subsequence of its input |
| Seqs.SubsequenceMembers | src/App.js:123-125 | every element of a subsequence occurs in the sequence |
| Seqs.FilterKeepsAll | src/App.js:136 | a filter returns its whole input exactly when every element passes |
| Seqs.FilterTwice | src/App.js:138-160 | two filters in sequence select what one filter on the conjunction selects |
| Seqs.FilterCongruent | src/App.js:138-160 | filters that agree on every element select the same elements |
| Seqs.CountCovered | src/App.js:101-105 | a predicate covered by two others counts at most their sum |
| Seqs.CountSnoc | src/App.js:91 | one more element adds one to a count exactly when it passes |
| Counters.Bump | src/App.js:98 | `m[k] = (m[k] \|\| 0) + 1` adds `k`, raises its count by one, and leaves every other key as it was |
| Counters.Tally | src/report.tsx:56 | bumping every key in turn from an empty object gives, per key, its number of occurrences, and no other key |
| Counters.TallySnoc | src/report.tsx:56 | tallying one more key bumps its counter |
| Counters.SumValuesBump | src/report.tsx:95 | one bump adds one to the sum of the values |
| Counters.SumValuesRemove | src/report.tsx:95 | the sum of the values does not depend on the order in which keys are taken |
| Counters.SumValuesTally | src/report.tsx:95 | the values of a tally add up to the number of keys tallied |
| Sheet.Cells | src/App.js:25 | the cells are the `,`-pieces of the `\n`-lines: no cell holds a separator, and joining the cells with `,` and the lines with `\n` gives the text back |
| Sheet.FromEntries | src/App.js:37-39 | `Object.fromEntries` has exactly the given keys, and each key holds the value of its last entry |
| Sheet.FromEntriesStep | src/App.js:37-39 | one more entry adds its key, and each key keeps the value of its last entry |
| Sheet.ToRecord | src/App.js:36-39 | a record maps every trimmed header to the trimmed cell at the same index, the later header winning when two trim alike |
| Sheet.Records | src/App.js:29-40 | one record per later line with as many cells as the header and a non-blank cell, in order; the `i`-th record is the `i`-th such line read against the header, keyed by the header |
| Sheet.RecordsSnoc | src/App.js:29-40 | one more line adds its record at the end exactly when it has as many cells as the header and a non-blank cell |
| Sheet.ParseSheet | src/App.js:25-40 | the conversion fails exactly when no line has a non-blank cell |
| Sheet.ParseSheetHeader | src/App.js:26-29 | the header is the first line with a non-blank cell, and only the lines after it are read |
| Sheet.ParsedRecordsHaveColumns | src/App.js:29-40 | every record of a parsed sheet has the header's columns, the same for all, and at least one |
| Sheet.RecordsHaveColumns | src/App.js:36-40 | records built from a non-empty header have that header's keys, at least one |
| CarSearch.Normalize | src/App.js:15-16 | `normalize` returns text with no white space and no upper-case letter, never longer than its input |
| CarSearch.NormalizeFixes | src/App.js:15-16 | text already lower-case and white-space-free is its own normal form |
| CarSearch.NormalizeIdempotent | src/App.js:15-16 | normalising twice is normalising once |
| CarSearch.NormalizeSteps | src/App.js:16 | normalising is lower-casing and then removing white space; the final `trim` has nothing left to do |
| CarSearch.Classify | src/App.js:92-98 | a booking is empty exactly when it is "", numeric exactly when it is a non-empty numeric string, and falls to an other bucket keyed by itself exactly when it is neither and holds none of "daily", "monthly", "leasing" |
| CarSearch.ClassifyKeywords | src/App.js:94-97 | a booking counts as daily exactly when it holds "daily", as monthly exactly when it holds "monthly" but not "daily", as leasing exactly when it holds "leasing" but neither of the others |
| CarSearch.WordIsNotNumeric | src/App.js:94-95 | a booking holding "daily", "monthly" or "leasing" is never numeric |
| CarSearch.DigitBookingIsNumeric | src/App.js:94 | a booking of digits is counted as an INVYGO booking |
| CarSearch.BookingCategory | src/App.js:92-98 | a row is skipped exactly when it has no booking, and an other bucket is keyed by the lower-cased booking |
| CarSearch.IdsConflict | src/App.js:101-103 | the identifiers conflict exactly when both columns are present and their normal forms are non-empty and differ; a missing column never conflicts |
| CarSearch.IsMismatch | src/App.js:140-144 | a mismatch has a numeric booking and both identifier columns, written differently |
| CarSearch.CountsAsMismatch | src/App.js:93-103 | a row the analytics counter counts as a mismatch always has a booking |
| CarSearch.FindMaintenance | src/App.js:154-156 | the matched entry is from the log and its `Vehicle` equals the raw `INVYGO`; nothing matches exactly when no entry has that vehicle |
| CarSearch.IsRepairDone | src/App.js:154-157 | the repair is done exactly when some log entry for the raw INVYGO vehicle records a `Date IN` and no earlier entry is for that vehicle; with no log entry for the vehicle the repair is not done |
| CarSearch.IsReadyToSwitchBack | src/App.js:149-159 | ready exactly when the repair is done, the booking (or "" when missing) is numeric, and the normalised identifiers differ: only one of the two columns present, or both present with different normal forms, empty ones included; for a mismatch this is the same as repair done |
| CarSearch.ReadyWithoutEjar | src/App.js:149-159 | a booked row with INVYGO "A1", no EJAR column and a log entry for "A1" with a `Date IN` is ready to switch back, yet it is not a mismatch |
| CarSearch.RowHighlight | src/App.js:320-340 | a row is plain exactly when it is no mismatch, green exactly when it is a mismatch whose repair is done, amber exactly when it is a mismatch whose repair is not done, and a green row is ready to switch back |
| CarSearch.FirstMaintenanceEntryWins | src/App.js:154-157 | entries appended after the first match change neither the match nor whether the repair is done |
| CarSearch.ReadyNeedsClosingEntry | src/App.js:148-159 | a row ready to switch back has a log entry for its raw INVYGO vehicle with a non-empty `Date IN` |
| CarSearch.JoinIsOnRawIdentifier | src/App.js:152-157 | the join compares raw identifiers: "ABC 1" and "abc1" normalise alike but do not match |
| CarSearch.RawLookupMisses | src/App.js:154-157 | the log entry for "abc1" does not match a booking whose INVYGO is "ABC 1" |
| CarSearch.NormalizeSpaced | src/App.js:15-16 | "ABC 1" normalises to "abc1" |
| CarSearch.MismatchOnly | src/App.js:138-146 | the mismatch-only filter keeps only rows of the data that are mismatches, and every such row |
| CarSearch.RepairedOnly | src/App.js:148-160 | the ready-to-switch-back filter keeps only rows of the data that are ready, and every such row |
| CarSearch.InView | src/App.js:135-160 | the AND of the two toggles, fixed by StagedFiltersAreConjunction: with both toggles off every row passes; under the mismatch toggle a passing row is a mismatch; under the ready toggle its repair is done and its booking is numeric |
| CarSearch.FilterView | src/App.js:135-163 | the view holds only rows of the data passing the toggles that are on, and every such row; with both toggles off it is the whole data |
| CarSearch.StagedFiltersAreConjunction | src/App.js:135-163 | the staged filters of `applyFilters` keep exactly the rows passing both toggles that are on |
| CarSearch.FilterViewOff | src/App.js:129-133 | with both toggles off the view is the whole data set |
| CarSearch.FilterViewIsSubsequence | src/App.js:135-163 | every view is an order-preserving selection of the data |
| CarSearch.FilterViewSelects | src/App.js:135-163 | a view holds only rows of the data passing the toggles that are on, and every such row |
| CarSearch.RowMatches | src/App.js:124 | a matching row has a field; with an empty keyword every row with a field matches |
| CarSearch.SpacedPlateIsFound | src/App.js:122-124 | a row whose INVYGO is "ABC 1" matches the search term "abc1" |
| CarSearch.SearchRows | src/App.js:123-125 | the search keeps only rows of the data matching the keyword, and every such row |
| CarSearch.SearchRowsSelects | src/App.js:121-127 | the search keeps, in order, only rows with a field containing the keyword, and every such row exactly as often as it occurs in the data |
| CarSearch.EmptySearchKeepsRows | src/App.js:121-125 | the empty keyword keeps every row exactly when every row has a field |
| CarSearch.BlankSearchKeepsSheet | src/App.js:121-125 | a blank search term keeps every record of a parsed sheet |
| CarSearch.SwitchBackMismatches | src/App.js:172-178 | the Mismatched figure is at most the number of rows shown, and positive exactly when some row shown is a mismatch |
| CarSearch.ReadyToSwitchBackCount | src/App.js:261-271 | the "Ready to Switch Back" figure is at most the number of rows shown, and positive exactly when some row shown is ready |
| CarSearch.MismatchFigureUnderFilter | src/App.js:172-178 | under the mismatch-only filter the mismatch figure equals the number of rows shown |
| CarSearch.ReadyFigureUnderFilter | src/App.js:261-271 | under the ready filter the "Ready to Switch Back" figure equals the number of rows shown |
| CarSearch.OtherKeys | src/App.js:98 | there is one other-bucket key per row classified as other, in row order |
| CarSearch.OtherKey | src/App.js:92-98 | a row classified as other gives its lower-cased booking as its one key; any other row gives none |
| CarSearch.OtherKeysSnoc | src/App.js:91-98 | one more row appends its own other-bucket key, if any |
| CarSearch.OtherKeysCount | src/App.js:98 | each other-bucket key occurs once per row whose lower-cased booking it is and that falls through to the other buckets |
| CarSearch.TallyOfOthers | src/App.js:98 | the other buckets are exactly the bookings some row falls through with, each holding the number of such rows, and together they count every such row |
| CarSearch.AnalyticsPartition | src/App.js:91-98 | every row with a booking lands in exactly one of the four counts or the other buckets |
| CarSearch.AnalyticsTotals | src/App.js:91-98 | the four counts plus the sum of the other buckets equal the number of rows with a booking |
| CarSearch.MismatchFilterBound | src/App.js:101-105 | the rows kept by the mismatch-only filter are at most the analytics mismatch count plus the unbooked rows with conflicting identifiers |
| CarSearch.UnbookedRowIsFilteredNotCounted | src/App.js:93 | a row with an empty booking and different vehicles is kept by the mismatch-only filter but not counted by the analytics counter |
| CarSearch.UnbookedRowIsMismatch | src/App.js:140-144 | the mismatch-only filter treats an empty booking as numeric, while the analytics counter skips it |
| CarSearch.MismatchOfFields | src/App.js:140-144 | the mismatch test on a row holding the booking and the two identifiers, in terms of their normal forms |
| CarSearch.ConflictOfValues | src/App.js:101-103 | the identifiers conflict exactly when both normal forms are non-empty and differ |
| CarSearch.FieldsOfRow | src/App.js:140-143 | what the mismatch test reads from a row holding the booking and the two identifiers |
| CarSearch.SpacingIsNotMismatch | src/App.js:142-144 | identifiers that differ only in spacing and case are not a mismatch |
| CarSearch.DifferentVehiclesAreMismatch | src/App.js:140-144 | a numeric booking with two different vehicles is a mismatch |
| Dashboard.CarSearchTool.constructor | src/App.js:5-12 | the component starts with no rows, an empty search and both toggles off |
| Dashboard.CarSearchTool.LoadBookings | src/App.js:20-46 | loaded bookings become both the data and the rows shown; a failed load changes nothing |
| Dashboard.CarSearchTool.LoadMaintenance | src/App.js:53-78 | a loaded log replaces the maintenance data; a failed load changes nothing |
| Dashboard.CarSearchTool.SetSearchTerm | src/App.js:204 | typing sets the search term |
| Dashboard.CarSearchTool.HandleGlobalSearch | src/App.js:121-127 | the rows shown become the rows of the data, in order, with a field containing the normalised term, and all of them |
| Dashboard.CarSearchTool.ResetFilters | src/App.js:129-133 | both toggles go off and the rows shown are the data, which is the view the toggles select |
| Dashboard.CarSearchTool.ApplyFilters | src/App.js:135-163 | the rows shown become the ordered subsequence of the data passing the requested toggles, and all of them |
| Dashboard.CarSearchTool.ToggleMismatch | src/App.js:216-220 | the mismatch toggle flips and the rows shown match both toggles |
| Dashboard.CarSearchTool.ToggleRepaired | src/App.js:228-232 | the ready toggle flips and the rows shown match both toggles |
| Dashboard.CarSearchTool.GetAnalytics | src/App.js:83-117 | the total counts the rows shown; the category counts and the mismatch count range over the data; each other bucket holds the number of rows whose lower-cased booking it is and that fall through the else-if chain; the counts and buckets add up to the rows with a booking |
| Dashboard.CountRow | src/App.js:91-106 | one row raises the counter of its own category, or bumps its own bucket, and raises the mismatch counter exactly when it counts as a mismatch |
| Dashboard.CategoryStep | src/App.js:94-97 | one more row adds one to its own category's count only |
| Dashboard.OtherStep | src/App.js:98 | one more row bumps its bucket when it is classified as other |
| DailyReport.Pad | src/report.tsx:30 | `pad` gives "00" for a falsy part; otherwise the part, left-padded with zeros to two characters, longer parts unchanged |
| DailyReport.DateKey | src/report.tsx:35-43 | the key is at least six characters long and holds a dash; what it gives for each date layout is stated by the lemmas below |
| DailyReport.OnDate | src/report.tsx:33-44 | a row shows on a date only when it has a non-empty pick-up date |
| DailyReport.SlashDateIsOnItsDay | src/report.tsx:33-44 | a row picked up at "5/1/2024 10:30" is listed on 2024-01-05 |
| DailyReport.FilteredByDate | src/report.tsx:32-45 | the rows listed are rows of the data on the selected date, and every such row |
| DailyReport.FilteredByDateExactly | src/report.tsx:32-45 | a row is listed exactly when it is in the data with a non-empty pick-up date whose key is the selected date, as often as it occurs there, in data order |
| DailyReport.DatePart | src/report.tsx:35 | the text before the first space of a date followed by a time is the date |
| DailyReport.ReplaceAllAppend | src/report.tsx:35 | `replaceAll` distributes over concatenation |
| DailyReport.ReplaceAllAbsent | src/report.tsx:35 | replacing a character that does not occur changes nothing |
| DailyReport.JoinThree | src/report.tsx:36 | three pieces joined by '-' |
| DailyReport.DateFields | src/report.tsx:35-36 | a date of three parts joined by '-' or '/' splits into those three parts |
| DailyReport.DateKeyYearFirst | src/report.tsx:35-43 | a date with a four-character first part is keyed year-month-day, month and day padded |
| DailyReport.DateKeyDayFirst | src/report.tsx:35-43 | a date with any other first part is keyed from its last, middle and first parts |
| DailyReport.BothOrdersAgree | src/report.tsx:38-43 | the same day written year-first or day-first gets the same key |
| DailyReport.IsoDateIsItsOwnKey | src/report.tsx:43-44 | a date in the date picker's form is its own key |
| DailyReport.SlashDateWithTime | src/report.tsx:35-43 | "5/1/2024 10:30" is keyed "2024-01-05" |
| DailyReport.SlashDateKey | src/report.tsx:43 | the pieces of "5/1/2024" assemble to "2024-01-05" |
| DailyReport.PadOneDigit | src/report.tsx:30 | a one-character part gets a leading zero |
| DailyReport.IsCountedBooking | src/report.tsx:50-51 | a counted row has a non-empty numeric booking column |
| DailyReport.CountedIsInvygo | src/report.tsx:50-51 | the report counts exactly the rows the dashboard counts as INVYGO bookings |
| DailyReport.ModelName | src/report.tsx:52 | the model is never empty: the row's own model when it has one |
| DailyReport.ModelBucket | src/report.tsx:52-55 | a row's bucket is never empty, and is either "Tiggo 4 2025" or the model name |
| DailyReport.ModelKeys | src/report.tsx:49-56 | one bucket per counted row |
| DailyReport.ModelKeysSnoc | src/report.tsx:49-56 | one more row appends its bucket when it is counted |
| DailyReport.CarCountStep | src/report.tsx:49-56 | one more row bumps its model's bucket exactly when it is counted |
| DailyReport.ModelKeysCount | src/report.tsx:49-56 | each bucket occurs once per counted row of that model |
| DailyReport.AllCarCount | src/report.tsx:47-59 | the tally holds exactly the models of counted rows, each with its number of counted rows, and its values add up to the number of counted rows |
| DailyReport.TallyOfModels | src/report.tsx:56-95 | the tally of the buckets counts the counted rows per model, and its TOTAL is the number of counted rows |
| DailyReport.TiggoModelLacksMarker | src/report.tsx:53-54 | the canonical Tiggo name does not itself contain the marker |
| DailyReport.BucketsAreCanonical | src/report.tsx:52-55 | every Tiggo 4 Pro variant lands under "Tiggo 4 2025", any other model under its own name as written, and re-bucketing a bucket name changes nothing |
| DailyReport.UnnamedModelIsUnspecified | src/report.tsx:52 | a row without a model is tallied under "غير محدد" |
| DailyReport.DailyBookingReport.constructor | src/report.tsx:6-7 | the report starts with no rows and today's date selected |
| DailyReport.DailyBookingReport.LoadReport | src/report.tsx:9-28 | loaded records replace the data; a failed load is only logged and changes nothing |
| DailyReport.DailyBookingReport.SelectDate | src/report.tsx:65 | the date picker sets the selected date |

## Left out

- Fetching the sheets (`fetch`, `async`/`await`, `useEffect`), `alert` and `console.error`: network I/O and asynchrony. The loaders take the fetched text as a parameter. A failure to fetch is not modelled. A failure to parse (no line with a non-blank cell, where the source throws on `headers.length`) is `Failure(NoHeaderRow)`, and the state is unchanged.
- `exportToExcel` and the XLSX calls: a foreign library and file output.
- JSX rendering, styles and `useRef`: this is UI. Only the status behind a row's colour is kept (`RowHighlight`), not the colours themselves.
- The `showAnalytics` toggle: it only shows or hides the panel.
- React's state batching and re-rendering: setters become field assignments. `analytics`, `switchBackMismatches` and the ready figure, which React recomputes on every render, are functions of the fields.
- DailyReport.DailyBookingReport.constructor: the clock is not modelled. The constructor takes the initial selected date (today's ISO date) as a parameter.
- Text.IsNumeric: covers plain decimal text with an optional sign, after trimming, plus the empty string. The rest of `Number()`'s grammar is not modelled: exponents, hexadecimal, binary and octal literals, and "Infinity".
- Text.ToLower: maps ASCII letters only. Unicode case mapping is not modelled.
- String lengths count characters, not UTF-16 code units. This matters only for characters outside the Basic Multilingual Plane.
- Record keys that clash with `Object.prototype` members are not modelled.
- Counters.Bump: a key inherited from `Object.prototype` ("constructor", "__proto__") in `otherTypes` or in the report's car counts misbehaves in JavaScript. The model counts it as an ordinary key.
- Text.NumericCharacters: holds for the modelled decimal grammar only. `Number` also accepts exponents, hexadecimal, binary and octal literals and "Infinity", whose letters are not number characters. CarSearch.WordIsNotNumeric is stated for "daily", "monthly" and "leasing" only, and no JavaScript numeric literal contains any of them.
- Text.NumericIgnoresCase: holds for the modelled grammar only. The booking "Infinity" is a number to `Number`, but lower-cased to "infinity" it is not. So DailyReport.CountedIsInvygo fails for that booking: the report counts it, while the dashboard files it under an other bucket.
- Sheet.ParseSheet: reads the lines after the header line, as `rows.slice(rows.indexOf(headers) + 1)` does. CSV quoting is not interpreted, because the source splits on every comma; the model does the same.
