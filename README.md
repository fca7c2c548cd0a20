# Timefolio ETF tracker: snapshot-to-report core in Dafny

The tracker crawls the holdings pages of Timefolio ETFs once a day and keeps one JSON
snapshot per date, mapping each fund's name to its rows
`[ticker, name, quantity, weight]`. A second script turns the accumulated snapshots into
the files the front end reads. This project models that transformation and the
holdings-page row parser, and proves what they promise:

- **Value extraction** (`Quantity`). `parseQuantity` removes every `,` and applies
  JavaScript's `parseInt(…, 10)`: leading white space is skipped, an optional sign is
  read, then the longest run of decimal digits. No digits means missing.
- **Date enumeration and the history window** (`History`).
  - `getAvailableDates` keeps the `.json` names, removes the first `.json` from each,
    sorts them by UTF-16 code units and reverses the result.
  - `buildMainData` keeps the dates not older than a cutoff and merges their snapshots
    into a fund → date → rows history.
- **The change summary of one fund** (`Summary`). `getSummaryForETF` keys both
  snapshots' rows by ticker. It classifies every ticker of either snapshot as newly
  included, newly excluded, bought or sold. Then it sorts the four lists.
- **The reports** (`Report`).
  - `buildSummaries` compares the two newest snapshots for every configured fund.
  - The metadata record of `last_updated.json` is built from the two history windows.
- **The holdings-page parser** (`EtfPage`). `parseETFPage` scans `<tr>` and `<td>`
  elements with global, case-insensitive regular expressions. It strips tags from the
  cells, trims them, and selects `[ticker, name, quantity, weight]` rows.

Supporting modules model the JavaScript built-ins the code relies on:

- `JsString`: `trim`, `trimStart`, `indexOf`, `replace`, string comparison and decimal
  numerals.
- `Sorting`: `Array.prototype.sort`, which is stable. It is modelled as insertion sort
  under a `before` relation.
- `JsObject`: the key order of `Object.keys`, where array-index keys come first in
  numeric order and the rest follow in creation order. It also models the iteration order
  of `new Set(…)` and ordinary objects used as dictionaries (`Object<T>`: entries plus
  creation order).
- `Wrappers`: `Option` and `Result`.

The loops of the source are methods with loop invariants, each proved equal to a
recursive specification function:

- `Summary.BuildTable`, `Summary.Classify` and `Summary.GetSummaryForEtf` for
  `getSummaryForETF`;
- `History.AddSnapshotRows`, `History.MergeDates` and `History.BuildMainData` for
  `buildMainData`;
- `Report.SummariseFunds` and `Report.BuildSummaries` for `buildSummaries`;
- `EtfPage.RowCells` and `EtfPage.ParseEtfPage` for `parseETFPage`.

The lemmas state the properties of those functions.

External inputs become parameters:

- a directory listing is `Option<seq<string>>`, with `None` for a missing directory;
- parsed snapshot files are a map from file name to snapshot, and a missing file is a
  read error;
- the cutoff date string and the time stamp are given;
- `parseFloat` is a function parameter;
- the Korean collation `localeCompare(…, 'ko')` is a `collate` relation, required to be a
  total preorder where ordering is proved.

JavaScript numbers are `real`. In `'shares'` mode every value is an integer produced by
`parseQuantity`.

One behaviour of the code is worth knowing. `getAvailableDates` removes the first
`.json` of a name, not the suffix, and `buildMainData` then reads `${date}.json`. A name
with an earlier `.json` therefore leads to a different file:
`History.FileOfDateMismatch` shows `x.jsonfoo.json` leading to `xfoo.json.json`, and
`History.FileOfDate` shows that a name whose only `.json` is its suffix is found again.
Real snapshot names are `YYYY-MM-DD.json`, so in practice the round trip holds.

## Model

| member | source | states |
|---|---|---|
| JsString.TrimStart | scripts/build_latest.js:40 | the part `parseInt` skips is exactly the leading white space: the result is a suffix, everything before it is white space, and it does not start with white space |
| JsString.Trim | scripts/update.js:59 | `trim()` removes only white space on either side and leaves a result that neither starts nor ends with white space |
| JsString.IndexOfFrom | scripts/build_latest.js:33 | the index found is the first occurrence of the pattern at or after the start position; `None` means there is no occurrence |
| JsString.RemoveAllRemoves | scripts/build_latest.js:40 | after `replace(/,/g, '')` no comma is left and every other character of the text is kept |
| JsString.RemoveAllCount | scripts/build_latest.js:40 | removing commas leaves no comma and keeps every other character exactly as often as it occurs |
| JsString.RemoveAllMultiset | scripts/build_latest.js:40 | the characters left are the multiset of the text with every comma dropped and nothing else changed |
| JsString.RemoveAllIdempotent | scripts/build_latest.js:40 | removing the commas twice is the same as removing them once |
| JsString.AtMostTotalOrder | scripts/build_latest.js:54 | the string comparison `d >= cutoffStr` compares under a total order: total, transitive and antisymmetric |
| JsString.DigitPrefix | scripts/build_latest.js:40 | the digits `parseInt` reads are the longest digit prefix: a prefix, all digits, followed by a non-digit or the end |
| JsString.DecimalValue | scripts/build_latest.js:40 | the decimal numeral of `n` denotes `n` |
| Sorting.Sort | scripts/build_latest.js:126-129 | sorting returns a permutation of its input |
| Sorting.SortSorted | scripts/build_latest.js:126-129 | under a total preorder the sorted list is ordered |
| Sorting.SortStable | scripts/build_latest.js:126-129 | among elements tied with any element, the sort keeps their input order (the sort is stable) |
| Sorting.StableSortUnique | scripts/build_latest.js:126-129 | two ordered permutations of each other that keep the same order among tied elements are equal, so any stable sort gives the result `Sort` gives |
| Sorting.SortCount | scripts/build_latest.js:126-129 | sorting keeps the number of elements with any property |
| Sorting.SortMembers | scripts/build_latest.js:126-129 | sorting keeps exactly the elements of the list |
| JsObject.ObjectKeysPermutation | scripts/build_latest.js:101 | `Object.keys` lists each created key exactly as often as it was created |
| JsObject.ObjectKeysLayout | scripts/build_latest.js:101 | `Object.keys` lists array-index keys first, in ascending numeric order, then the other keys in creation order |
| JsObject.Dedup | scripts/build_latest.js:101 | `new Set(…)` iteration: no repetitions, exactly the elements of the input |
| JsObject.Put | scripts/build_latest.js:86 | `o[k] = v`: the entries are updated at `k`; a new key goes to the end of the creation order and an existing key keeps its place; validity is preserved |
| JsObject.KeysOfValid | scripts/build_latest.js:101 | `Object.keys` of an object lists each of its keys exactly once and nothing else |
| JsObject.KeysCount | scripts/build_latest.js:214 | `Object.keys(o).length` is the number of keys of `o` |
| Quantity.ParseNumeral | scripts/build_latest.js:40 | `parseInt` after the white space is NaN exactly when no sign-plus-digit or digit starts the text |
| Quantity.ParseInt | scripts/build_latest.js:40 | `parseInt(s, 10)` is NaN exactly when no numeral follows the leading white space |
| Quantity.ParseQuantity | scripts/build_latest.js:38-42 | `null`/`undefined` is missing; otherwise the result is missing exactly when no numeral follows the leading white space once the commas are removed |
| Quantity.ParseIntNumeral | scripts/build_latest.js:40 | `parseInt` reads back any integer's numeral, whatever white space precedes it and whatever non-digit text follows it |
| Quantity.ParseIntOfNumeral | scripts/build_latest.js:40 | `parseInt(String(n), 10) == n` for every integer `n` |
| Quantity.ParseQuantitySeparators | scripts/build_latest.js:38-42 | a numeral written with thousands separators (`"-1,234,567"`) is read as its value, for every integer |
| Quantity.ParseQuantityIgnoresCommas | scripts/build_latest.js:40 | removing commas before `parseQuantity` changes nothing |
| Quantity.ParseQuantityNumeralThen | scripts/build_latest.js:40 | any comma-free text after a numeral that starts with a non-digit is ignored (a comma in it would be removed first, so `12,5` reads as 125) |
| Quantity.ParseQuantityNumbers | scripts/build_latest.js:38-42 | `"1,234"` gives 1234 and `"0"` gives 0, which is present and not missing |
| Quantity.ParseQuantitySigned | scripts/build_latest.js:40 | `" -7"` gives -7: white space is skipped and the sign is read |
| Quantity.ParseQuantityTrailingText | scripts/build_latest.js:40 | `"12abc"` gives 12 |
| Quantity.ParseQuantityFraction | scripts/build_latest.js:40 | `"12.5"` gives 12 |
| Quantity.ParseQuantityMissing | scripts/build_latest.js:38-42 | `null`, `""` and `"abc"` are missing |
| Summary.ValueIndex | scripts/build_latest.js:75 | column 2 is read exactly in `'shares'` mode, column 3 otherwise |
| Summary.ValueOf | scripts/build_latest.js:76-78 | in `'shares'` mode the value is `parseQuantity` of column 2, present exactly when that is; otherwise the value is `parseFloat` of column 3, and a row without column 3 gives missing |
| Summary.Fill | scripts/build_latest.js:84-87 | the ticker table is a valid object keyed by exactly the tickers of the rows |
| Summary.FillLastWins | scripts/build_latest.js:84-87 | for a repeated ticker, the entry holds the name and value of its last row |
| Summary.NullRowsAsEmpty | scripts/build_latest.js:83-94 | a `null` row list gives the same, empty, table as an empty list |
| Summary.TickersOfTables | scripts/build_latest.js:101 | the tickers visited are exactly those of either table, each once |
| Summary.CollectNewIn | scripts/build_latest.js:103-108 | the loop pushes into `newIn` exactly the visited tickers found only today, each once, with today's name and value |
| Summary.CollectNewOut | scripts/build_latest.js:103-110 | the loop pushes into `newOut` exactly the visited tickers found only previously, each once, with the previous name and value |
| Summary.CollectBuys | scripts/build_latest.js:111-118 | the loop pushes into `buys` exactly the visited tickers with both values present whose change reaches the threshold, each once, with today's name and the change |
| Summary.CollectSells | scripts/build_latest.js:111-121 | the loop pushes into `sells` exactly the visited tickers with both values present that are no buy and whose change reaches minus the threshold, each once |
| Summary.ClassifiedNewIn | scripts/build_latest.js:107-108 | the summary's `newIn` holds exactly the tickers only in today's table, with today's name and value, even a missing value, each once |
| Summary.ClassifiedNewOut | scripts/build_latest.js:109-110 | the summary's `newOut` holds exactly the tickers only in the previous table, with the previous name and value, each once |
| Summary.ClassifiedBuys | scripts/build_latest.js:111-118 | the summary's `buys` holds exactly the tickers in both tables with both values present and `today - prev >= threshold`, with today's name and the change, each once |
| Summary.ClassifiedSells | scripts/build_latest.js:111-121 | the summary's `sells` holds exactly the tickers in both tables with both values present, no buy, and `today - prev <= -threshold`, with today's name and the change, each once |
| Summary.SummaryClassification | scripts/build_latest.js:101-123 | all four lists at once: each holds exactly its class of tickers with the right name and value or change, and no ticker twice |
| Summary.SummaryDisjoint | scripts/build_latest.js:103-123 | no ticker appears in two of the four lists |
| Summary.CollectWithoutPrevious | scripts/build_latest.js:103-123 | with no previous entries, nothing is excluded, bought or sold |
| Summary.NoPreviousAllNew | scripts/build_latest.js:89-108 | a fund without previous rows has every ticker of today newly included, as many inclusions as tickers, and no exclusions, buys or sells |
| Summary.DeltaOrders | scripts/build_latest.js:128-129 | both change comparators are total preorders |
| Summary.ByNameOrder | scripts/build_latest.js:126-127 | a collation that is a total preorder orders listings by name as a total preorder |
| Summary.SummaryOrdered | scripts/build_latest.js:125-129 | buys are non-increasing and sells non-decreasing by change; inclusions and exclusions are ordered by name; each list is a permutation of its unsorted contents, and ties keep their order |
| Summary.BuildTable | scripts/build_latest.js:83-94 | the `forEach` filling a ticker table computes `TableOf` |
| Summary.Classify | scripts/build_latest.js:103-123 | the `forEach` over all tickers computes the four unsorted lists `Collect` |
| Summary.GetSummaryForEtf | scripts/build_latest.js:73-132 | the method computes `GetSummary`, whose properties are the lemmas above |
| History.Reverse | scripts/build_latest.js:35 | `reverse()` puts element `i` at position `n - 1 - i` |
| History.JsonFiles | scripts/build_latest.js:32 | exactly the names that end in `.json` are kept |
| History.DatesOf | scripts/build_latest.js:33 | one date per file, each the file with its first `.json` removed |
| History.CodeUnitOrder | scripts/build_latest.js:34 | the default `sort()` order is a total preorder |
| History.AvailableDatesFromFiles | scripts/build_latest.js:29-36 | the dates are one per `.json` file, and a date is listed exactly when some `.json` name gives it |
| History.AvailableDatesNewestFirst | scripts/build_latest.js:30-35 | a missing directory gives no dates; the dates are newest first, strictly so when no two files give the same date |
| History.FileOfDate | scripts/build_latest.js:59 | a file whose only `.json` is its suffix is the file read back for its date |
| History.FileOfDateMismatch | scripts/build_latest.js:59 | the name `x.jsonfoo.json` gives a date whose file is `xfoo.json.json` |
| History.Retained | scripts/build_latest.js:54 | the kept dates are exactly the listed dates not older than the cutoff |
| History.RetainedPrefix | scripts/build_latest.js:54 | from a newest-first list the kept dates are a prefix: every kept date is not older than the cutoff, every dropped one is |
| History.MainDataWindow | scripts/build_latest.js:47-54 | `buildMainData` is null exactly when there are no dates; otherwise its dates are the newest-first prefix not older than the cutoff |
| History.MainDataAllOld | scripts/build_latest.js:47-68 | when every date is older than the cutoff the result is `{ dates: [], data: {} }`, not null |
| History.AddRowsContents | scripts/build_latest.js:63-64 | one fund of one snapshot records its rows under that fund and date and changes nothing else |
| History.AddSnapshotContents | scripts/build_latest.js:62-65 | the inner loop records the rows of every fund of the snapshot under the date and changes nothing else |
| History.AddSnapshotNoEmpty | scripts/build_latest.js:62-65 | the inner loop never leaves a fund without rows |
| History.MergeSucceeds | scripts/build_latest.js:58-60 | the merge succeeds exactly when every retained date's file can be read |
| History.MergeErrorPersists | scripts/build_latest.js:58-60 | once a file cannot be read the merge fails with that error whatever follows |
| History.MergeContents | scripts/build_latest.js:56-66 | `data[f][d]` exists exactly when `d` is retained and snapshot `d` has fund `f`, and then it is that snapshot's rows; a fund missing from a date has no entry for it; no fund is without rows |
| History.MergeOrigin | scripts/build_latest.js:58-66 | every fund of the history comes from some retained snapshot |
| History.AddSnapshotRows | scripts/build_latest.js:62-65 | the inner `for` loop computes `AddSnapshot` |
| History.MergeDates | scripts/build_latest.js:58-66 | the outer `for` loop computes `Merge`, stopping at the first unreadable file |
| History.BuildMainData | scripts/build_latest.js:46-69 | the method computes `MainDataOf`, whose properties are the lemmas above |
| Report.ThresholdOf | scripts/build_latest.js:143 | `SHARES_THRESHOLD` in `'shares'` mode and `WEIGHT_THRESHOLD` otherwise, both positive |
| Report.FundMapKeys | scripts/build_latest.js:151-158 | the loop keeps exactly the names with rows in the latest snapshot, an empty list included, each mapped to its summary |
| Report.FundSummariesKeys | scripts/build_latest.js:148-158 | the summaries are keyed by exactly the configured funds present in the latest snapshot, each holding the summary of its latest rows against its previous rows or `null` |
| Report.SummariesDates | scripts/build_latest.js:135-168 | null exactly when fewer than two dates exist; otherwise it fails exactly when one of the two newest files is unreadable, compares `dates[0]` against `dates[1]`, uses the mode's threshold, summarises the configured funds of the two snapshots read and passes the global and domestic groups through |
| Report.NewFundAllIncluded | scripts/build_latest.js:151-157 | a configured fund missing only from the previous snapshot has all its tickers newly included and nothing else |
| Report.SummariseFunds | scripts/build_latest.js:151-158 | the loop over `ETF_LIST` computes `FundSummaries` |
| Report.BuildSummaries | scripts/build_latest.js:134-169 | the method computes `SummariesOf`, whose properties are the lemmas above |
| Report.MetaFields | scripts/build_latest.js:206-216 | the metadata date is the newest retained holdings date, else the newest shares date; null when neither history exists, `undefined` when the chosen one kept no date; the fund count and date list come from the holdings history |
| Report.MetaAllHoldingsOld | scripts/build_latest.js:206-216 | a holdings history with every date older than the cutoff gives an `undefined` date and a zero count, whatever the shares history holds |
| EtfPage.IndexOfCaselessFirst | scripts/update.js:52 | the case-insensitive search finds the first occurrence at or after the start |
| EtfPage.IndexOfCharFirst | scripts/update.js:59 | the character search finds the first occurrence at or after the start |
| EtfPage.MatchAtSpec | scripts/update.js:52 | a match at `p` is `<tag`, a run without `>` then `>`, and a lazy body up to the first closing tag in any case; whenever such a text is there the attempt matches |
| EtfPage.FailedAttemptFinal | scripts/update.js:54 | once an opening tag has no match, no later position matches either |
| EtfPage.ExecLeftmost | scripts/update.js:54 | `exec` returns the leftmost match at or after `lastIndex` |
| EtfPage.MatchesOrdered | scripts/update.js:54 | the matches a global `exec` loop visits do not overlap and come in document order |
| EtfPage.NoTagMeans | scripts/update.js:59 | a tag-free text is one where no `<` has a `>` after it |
| EtfPage.StripTagsNoTag | scripts/update.js:59 | removing `<[^>]*>` leaves no `<` followed later by `>` |
| EtfPage.StripTagsSubset | scripts/update.js:59 | removing tags adds no character |
| EtfPage.StripTagsKeeps | scripts/update.js:59 | text with no `<` followed later by `>` is left unchanged |
| EtfPage.StripTagsPrefix | scripts/update.js:59 | text without `<` in front of the rest is kept as it is |
| EtfPage.StripTagsTag | scripts/update.js:59 | a `<`, text without `>`, and a `>` are removed together |
| EtfPage.StripTagsIdempotent | scripts/update.js:59 | removing tags a second time changes nothing |
| EtfPage.NoTagTrim | scripts/update.js:59 | trimming a tag-free text keeps it tag-free |
| EtfPage.CellTextClean | scripts/update.js:59 | a cell text is trimmed and tag-free |
| EtfPage.CellsClean | scripts/update.js:56-60 | every cell text of a row is trimmed and tag-free |
| EtfPage.RowOf | scripts/update.js:62-70 | fewer than five cells give no row; otherwise no row exactly when the ticker is empty or the header text or the name is the cash line; a row is cells 0, 1, 2 and 4 |
| EtfPage.RowList | scripts/update.js:68-70 | each table row pushes at most one row, and the row kept if any |
| EtfPage.RowOfShape | scripts/update.js:62-70 | a row selected from clean cells has four trimmed, tag-free fields and an accepted ticker and name |
| EtfPage.RowsShape | scripts/update.js:52-72 | every row the loop keeps is well shaped |
| EtfPage.RowsCount | scripts/update.js:54-71 | the loop keeps at most one row per table row |
| EtfPage.CandidatesAt | scripts/update.js:54-71 | the `i`-th candidate is the row selected from the cells of the `i`-th table-row match, whose body alone is searched for cells |
| EtfPage.RowsInOrder | scripts/update.js:54-71 | the rows kept are the present candidates, in the order of the table rows |
| EtfPage.RowsOfCandidates | scripts/update.js:54-71 | a row is kept exactly when some table row's cells select it |
| EtfPage.PageRowsProperties | scripts/update.js:49-74 | the page's rows: at most one per table row, each well shaped, the rows the table rows select, in document order |
| EtfPage.RowsStep | scripts/update.js:54-71 | one iteration of the `<tr>` loop: no match ends it, a match contributes its row and the search resumes after it |
| EtfPage.RowCells | scripts/update.js:55-60 | the inner `<td>` loop computes the cell texts `Cells` |
| EtfPage.ParseEtfPage | scripts/update.js:49-74 | the method computes `PageRows`, whose properties are the lemmas above |

## Left out

- File system and JSON. `existsSync`, `readdirSync`, `readFileSync`, `writeFileSync`,
  `mkdirSync`, `JSON.parse` and `JSON.stringify` are I/O. A listing or a snapshot is
  given already read, and a missing file is the `Unreadable` error, which stands for the
  exception `readFileSync` throws. Malformed JSON is not modelled.
- The clock. The cutoff `new Date()` minus `HISTORY_KEEP_DAYS` (120), turned into an ISO
  date, is a parameter. So is the KST `updated_at` time stamp of `main`.
- Floating point. Weights are `real` and `parseFloat` is a parameter, so the rounding of
  IEEE-754 subtraction near the 0.5 threshold is not captured.
- Korean collation. `localeCompare(…, 'ko')` is the parameter `collate`; ordering results
  require it to be a total preorder.
- `main` itself, the console output, `scripts/constants.js` and the crawler: only the
  metadata record is modelled from `main`. The fund list and the global/domestic groups
  are a `Config` parameter. The thresholds are constants (0.5 and 10). `fetchHTML`,
  `crawlAll`, `getTodayKST` and `saveHistory` are network I/O, async and clock code.
- Snapshot rows are sequences of strings with a ticker and a name. Rows of other JSON
  types, shorter rows and duplicate keys of `JSON.parse` are not modelled.
- The objects of the model hold only their own keys. A plain JavaScript object also
  inherits the names of `Object.prototype` (`constructor`, `toString`, `hasOwnProperty`,
  …), and `__proto__` is special on assignment, and none of this is modelled. So a
  ticker named `constructor` present only today is listed in `newIn` by the model, while
  `ticker in prevMap` (scripts/build_latest.js:104-105) is true in JavaScript, which
  takes the both-present branch with an undefined previous value and a `NaN` change.
  The truth tests of scripts/build_latest.js:63 and :152-153 also see the inherited
  names as present.
- Strings are sequences of Dafny characters. UTF-16 surrogate pairs and code-unit lengths
  are not distinguished. The white space of `trim` and `parseInt` is the WhiteSpace and
  LineTerminator set of sections 12.2 and 12.3 of ECMA-262.
- Quantity.ParseQuantity: integers are unbounded, so `parseInt` results beyond 2^53,
  which JavaScript rounds, are exact here.
- EtfPage.Exec: the regular-expression engine is modelled for the three patterns used,
  as direct scans of the text. It is not a general regex engine. Only the ASCII letters
  of the tag names are compared without case.
