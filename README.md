# BetterloxdTS diary pipeline, modelled in Dafny

BetterloxdTS reads a Letterboxd diary export (CSV), keeps the films first
watched in a given year, ranks them by rating and exports them as a
Letterboxd list of `Letterboxd URI,Title` rows. All of it lives in one class,
`LetterboxdData`, whose `diary` field is an array of diary entries. The
repository has three near-identical versions of the class:

- `dist/index.js` parses with csv-parse. Every cell is a string. The mapper
  coerces `Year` and `Rating` with `Number()` and `Rewatch` with `Boolean()`.
- `docs/index.js` parses with PapaParse and dynamic typing. Cells arrive as
  numbers, booleans, strings or `null`. The mapper copies them as they are,
  except that `Rewatch` gets `|| false`.
- `src/index.ts` has the csv-parse mapper, `init(array?)` and the year filter.

The filters, the comparator and the year-first-watches pipeline are the same
code in `dist` and `docs`. They are modelled once. Each "## Model" row cites
one copy, and the copy in the other file is identical.

## Structure

- `wrappers.dfy` (`Wrappers`): `Option`.
- `decimal.dfy` (`Decimal`): digit strings, their values, zero-padded rendering
  and both round trips.
- `js_values.dfy` (`JsValues`): the JavaScript primitives an entry field can
  hold (`undefined`, `null`, booleans, numbers, strings). Also the coercions the
  code uses: `Number()`, ToBoolean (for `Boolean()` and `||`), `== undefined`,
  `== true/false`, and `>=`. A finite number is an exact `real`, so a rating
  such as 3.5 is exact.
- `js_date.dfy` (`JsDate`): the year that
  `new Date(`${watchedDate}T00:00:00Z`).getUTCFullYear()` produces. It follows
  the ECMAScript Date Time String Format (section 21.4.1.32 of ECMA-262). The
  text must be `YYYY`, `YYYY-MM` or `YYYY-MM-DD`, with the month in 01–12 and
  the day in 01–31. Any other text is an invalid date, whose year is NaN
  (`None`).
- `diary.dfy` (`Diary`): `DiaryEntry`, a csv-parse row (`map<string,string>`),
  a PapaParse row (`map<string,Value>`) and the two row-to-entry mappers.
- `transforms.dfy` (`Transforms`): the filter predicates as a `Criterion`, the
  order-keeping `Filter`, the sort comparator `Compare`, and the order a sort
  with that comparator produces.
- `list_export.dfy` (`ListExport`): the export as a header row followed by one
  `(uri, name)` cell pair per entry.
- `letterboxd.dfy` (`Letterboxd`): the class `LetterboxdData`. `diary` is an
  `array` field. The constructors and `init*` methods build instances. The
  filters return fresh instances and leave `this.diary` alone. The sort is an
  in-place insertion sort on the array. The module also holds
  `GetLetterboxdDataForYearFirstWatches`.
- `scenarios.dfy` (`Scenarios`): worked cases. One diary row is followed
  through the pipeline, and one example shows where unrated entries land in
  each sort direction.

Behaviour of the code that the model keeps, and that a reader might not expect:

- Unrated entries are not always last. The comparator returns `returner` when
  `a.rating == undefined`, so unrated entries go last ascending and first
  descending (`Scenarios.UnratedPlacementByDirection`).
- `Number("")` is 0, so in the csv-parse variants an empty Rating is a rating
  of 0. A missing Rating column gives NaN. Either way `rating == undefined`
  never holds there, so no csv-parse entry is unrated
  (`Diary.CsvRatingNeverNullish`).
- Equal ratings get `returner` in both argument orders, so the comparator
  leaves the order of ties open (`Transforms.CompareTies`).
- In the PapaParse variant, a Rewatch cell holding the text `Yes` survives
  `|| false`. It is neither `== true` nor `== false`, so that entry passes
  neither rewatch filter (`Transforms.PapaYesMatchesNeither`).
- PapaParse does not trim cells. A Rewatch cell of blanks is truthy, survives
  `|| false`, and `Number()` reads it as 0, so that entry passes
  filterByRewatch(false) (`Transforms.PapaBlankRewatchIsFalse`).

Inputs the model takes as parameters: the parsed rows, in place of the CSV
text and the `data/diary.csv` file. The rows stand for whatever csv-parse or
PapaParse yields.

## Model

| member | source | states |
|---|---|---|
| `Letterboxd.LetterboxdData.constructor` | dist/index.js:26-28 | a new instance has a fresh, empty diary array |
| `Letterboxd.LetterboxdData.InitFromDiaryArray` | dist/index.js:36-40 | the instance's diary is the given array itself, not a copy (so it is shared); docs/index.js:14-18 is identical |
| `Letterboxd.LetterboxdData.ReadDiary` | dist/index.js:56-82 | exactly one entry per parsed row, in row order, entry i being the csv-parse mapping of row i; src/index.ts:33-47 is the same loop |
| `Letterboxd.LetterboxdData.ReadDiaryPapa` | docs/index.js:28-51 | the forEach loop makes exactly one entry per PapaParse row, in row order, entry i being the PapaParse mapping of row i |
| `Letterboxd.LetterboxdData.InitFromCsvRows` | dist/index.js:41-47 | initFromString gives a fresh instance whose fresh diary array holds the mapped rows in order |
| `Letterboxd.LetterboxdData.InitFromPapaRows` | docs/index.js:19-25 | initFromString of the PapaParse variant gives a fresh instance whose diary holds the PapaParse-mapped rows in order |
| `Letterboxd.LetterboxdData.Init` | src/index.ts:8-20 | with an array (even an empty one) the diary is exactly that array; without one it is the mapped file rows in order |
| `Letterboxd.LetterboxdData.FilterByWatchedDate` | dist/index.js:92-103 | returns a fresh instance holding the order-kept subsequence of entries whose UTC watched-date year equals yearFilter; month and day arguments have no effect; this.diary is unchanged; docs/index.js:54-65 and src/index.ts:50-59 are the same |
| `Letterboxd.LetterboxdData.FilterByRewatch` | dist/index.js:104-113 | returns a fresh instance holding the order-kept subsequence of entries with rewatch == flag; this.diary is unchanged; docs/index.js:66-75 is the same |
| `Letterboxd.LetterboxdData.GetDiaryAsLetterboxdList` | dist/index.js:114-123 | the export is the header then one (uri, name) pair per diary entry, in diary order |
| `Letterboxd.LetterboxdData.SortDiaryByRating` | dist/index.js:130-149 | the diary array is reordered in place into a permutation of its old contents; if every rating is absent or finite, rated entries are non-decreasing (ascending) or non-increasing (descending), and unrated entries go after all rated ones ascending and before them descending; docs/index.js:82-101 is the same |
| `Letterboxd.GetLetterboxdDataForYearFirstWatches` | dist/index.js:151-161 | the result is a fresh instance holding, with multiplicity, exactly the 2024 entries with rewatch == false, all of which satisfy both filters, sorted descending by rating when the ratings are comparable; the input instance is unchanged; docs/index.js:103-113 is the same |
| `Diary.EntryFromCsvRow` | dist/index.js:62-71 | the csv-parse mapping: year and rating always hold numbers, because `Number()` is applied, and rewatch always holds a boolean, because `Boolean()` is; the other fields are the cells as they are, which `Diary.CsvTextFields` states; src/index.ts:35-44 is the same |
| `Diary.EntryFromPapaRow` | docs/index.js:37-46 | the PapaParse mapping keeps every cell as typed, except rewatch, which is the cell when it is truthy and `false` otherwise |
| `JsValues.Trim` | dist/index.js:65-67 | the trimmed text, if not empty, neither starts nor ends with the white space `Number()` ignores |
| `JsValues.TrimStartCutsWhiteSpace` | dist/index.js:65-67 | everything the leading trim removes is white space |
| `JsValues.TrimEndCutsWhiteSpace` | dist/index.js:65-67 | everything the trailing trim removes is white space |
| `JsValues.TrimIsInfix` | dist/index.js:65-67 | the trimmed text is a slice of the input with only white space before and after it |
| `JsValues.TrimBlank` | dist/index.js:65-67 | only a string made of white space trims to nothing |
| `JsValues.NumberOf` | dist/index.js:65-67 | `Number()` of a blank or empty string is 0 |
| `JsValues.NumberOfPadded` | dist/index.js:65-67 | `Number()` ignores white space before and after the text: a padded text reads as the text alone |
| `JsValues.ToNumber` | dist/index.js:65-67 | every falsy value other than `undefined` and NaN converts to 0 |
| `JsValues.ToBoolean` | dist/index.js:68 | `Boolean()`: no `undefined` or `null` value is truthy |
| `JsValues.Or` | docs/index.js:43 | the logical or of v and w is one of its two operands, truthy exactly when either operand is |
| `JsValues.IsNullish` | dist/index.js:136-139 | `rating == undefined` holds exactly of `undefined` and `null` |
| `JsValues.LooselyEqualsBoolean` | dist/index.js:108 | `v == b` holds exactly when v is neither `undefined` nor `null` and converts to b's number, 1 or 0 |
| `JsValues.StringLessAsymmetric` | dist/index.js:142 | no two strings are each lexicographically below the other |
| `JsValues.GreaterOrEqualOrder` | dist/index.js:142 | `a >= b` or `b >= a` holds for two strings and for two values that convert to finite numbers; outside the two-strings case a NaN operand makes both false |
| `JsDate.IsoYear` | dist/index.js:96-97 | the year of a date-only text in the ECMAScript Date Time String Format lies between 0 and 9999 (which texts have a year is stated by `IsoYearOfFormatted` and `IsoYearShape`) |
| `JsDate.UtcFullYear` | src/index.ts:53-54 | the UTC year of the watched date written into the template literal: a string as its text, a whole number from 1000 to 9999 as that year, anything else none |
| `Transforms.Matches` | dist/index.js:95-98 | a year filter matches only a four-digit year, and a rewatch filter (dist/index.js:107-108) never matches an `undefined` or `null` rewatch |
| `Transforms.Filter` | dist/index.js:107-108 | `Array.filter` never returns more entries than the diary has |
| `Transforms.RewatchFiltersDisjoint` | dist/index.js:104-109 | no entry is kept by both filterByRewatch(true) and filterByRewatch(false) |
| `Transforms.PapaBlankRewatchIsFalse` | docs/index.js:43 | a Rewatch cell of blanks is kept by the or-default and then passes filterByRewatch(false) but not filterByRewatch(true) |
| `Transforms.FirstWatches` | dist/index.js:155-156 | the two filters in a row keep no more entries than the diary has, and an entry is kept exactly when it is in the diary and passes both |
| `Letterboxd.SwapDown` | dist/index.js:135 | one exchange of two neighbouring entries of the array, which keeps its multiset of entries |
| `Letterboxd.Insert` | dist/index.js:135-148 | one insertion pass leaves the entries after position i untouched, keeps the multiset of the prefix up to i, and, for comparable ratings, leaves that prefix sorted |
| `Transforms.Compare` | dist/index.js:135-148 | the comparator only ever answers 1 or -1 |
| `Transforms.CompareTies` | dist/index.js:142-143 | two equally rated entries get `returner` in both argument orders, so the comparator is inconsistent on ties |
| `Transforms.CompareDecidesBefore` | dist/index.js:136-147 | for absent or finite ratings, a positive answer lets b precede a and a non-positive one lets a precede b, in the direction's order (unrated last ascending, first descending) |
| `Transforms.AdjacentInOrderIsSorted` | dist/index.js:135-148 | when every pair of neighbours is in the comparator's order, every pair of positions is, which gives the rated-order and unrated-placement properties |
| `Transforms.FilterKeepsMatchingPositions` | dist/index.js:95-99 | the filtered list is the entries at a strictly increasing list of positions, and a position is among them exactly when its entry matches |
| `Transforms.FilterCounts` | dist/index.js:107-109 | counting multiplicities, the filter keeps every matching entry and drops every other |
| `Transforms.FilterMembers` | docs/index.js:57-61 | an entry is in the filtered list exactly when it is in the diary and matches |
| `Transforms.RewatchPartition` | dist/index.js:104-109 | when every rewatch is a boolean, the true-filter and false-filter together hold exactly the diary's entries |
| `Transforms.CsvDiaryRewatchIsBoolean` | dist/index.js:68 | a diary made by the csv-parse mapper has a boolean rewatch in every entry, so the partition applies |
| `Transforms.PapaYesMatchesNeither` | docs/index.js:43 | a Rewatch cell "Yes" is kept by the logical-or default to `false` and then matches neither filterByRewatch(true) nor filterByRewatch(false) |
| `Transforms.InvalidDateNeverMatches` | src/index.ts:52-56 | an entry whose watched date gives no valid year passes no year filter |
| `Transforms.FirstWatchesCounts` | docs/index.js:107-108 | year filter then rewatch-false filter keep, with multiplicity, exactly the entries passing both |
| `ListExport.LetterboxdList` | dist/index.js:115-121 | header `Letterboxd URI,Title` first, then row i+1 is entry i's (uri, name), one row per entry |
| `ListExport.EmptyDiaryExportsHeader` | dist/index.js:115-121 | an empty diary exports only the header |
| `ListExport.CsvRowsRoundTrip` | dist/index.js:62-71 | read with the csv-parse mapper and exported, rows with both columns come back as their URI and Name cells in input order |
| `ListExport.ExportSeesOnlyUriAndName` | dist/index.js:117-120 | the export depends on uri and name only; all other fields are dropped |
| `Diary.CsvTextFields` | src/index.ts:36-43 | date, name, uri, tags and watchedDate are the cells of exactly those header names, and `undefined` when the column is missing |
| `Diary.CsvRowIgnoresOtherColumns` | dist/index.js:62-71 | a column outside the eight read ones changes nothing in the entry |
| `Diary.PapaRowIgnoresOtherColumns` | docs/index.js:37-46 | a column outside the eight read ones changes nothing in the PapaParse entry |
| `Diary.CsvRewatchIsBoolean` | dist/index.js:68 | `Boolean()` makes rewatch true exactly when the Rewatch cell is present and non-empty |
| `Diary.CsvRatingNeverNullish` | dist/index.js:67 | `Number()` never yields `undefined`: an empty Rating is 0 and a missing one NaN |
| `Diary.CsvYear` | src/index.ts:38 | a four-digit Year cell becomes that number |
| `Diary.PapaRewatch` | docs/index.js:43 | a falsy or missing Rewatch becomes `false`; a truthy one is kept as it is |
| `Diary.PapaEmptyRatingIsUnrated` | docs/index.js:42 | an empty cell (PapaParse `null`) or a missing Rating column leaves the entry unrated |
| `JsValues.NumberOfDigits` | dist/index.js:65 | `Number()` reads a digit string back as the number it renders |
| `JsValues.NumberOfDecimal` | dist/index.js:67 | `Number()` reads a rating "d.e" as exactly d + e/10 |
| `JsDate.IsoYearOfFormatted` | dist/index.js:96-97 | YYYY-MM-DD, YYYY-MM and YYYY with zero padding give back year YYYY |
| `JsDate.IsoYearShape` | src/index.ts:53-54 | a text with a UTC year is 4, 7 or 10 characters long, the year is its first four digits, a month follows a dash and lies in 01–12, and a day follows a second dash and lies in 01–31; together with `IsoYearOfFormatted` this is the exact set of texts with a year |
| `JsDate.IsoYearRejectsMonth` | docs/index.js:58-59 | a month above 12 makes the date invalid whatever the day |
| `Decimal.DigitsRoundTrip` | dist/index.js:65 | reading back a zero-padded rendering gives the number, when it fits the width |
| `Decimal.ValueRoundTrip` | dist/index.js:65 | every digit string is the zero-padded rendering of its own value |
| `Scenarios.FooRowEntry` | dist/index.js:62-71 | the row Date=2024-01-01, Name=Foo, Year=2023, URI=http://x, Rating=4, Rewatch empty, Watched Date=2024-05-02 maps to rating 4, rewatch false, year 2023 |
| `Scenarios.FooEntryThroughThePipeline` | dist/index.js:155-156 | that entry passes the 2024 year filter and the rewatch-false filter, and exports as (http://x, Foo) |
| `Scenarios.UnratedPlacementByDirection` | dist/index.js:131-138 | for ratings 3, 5 and none, descending order is [none, 5, 3] (and [5, 3, none] is out of order); ascending is [3, 5, none] |

## Left out

- File input and output are not modelled: `init()`, `readDiaryFromDataFolder`,
  `writeDiaryAsLetterboxdList`, and src's `createReadStream` of
  `data/diary.csv`. The parsed rows are a parameter instead.
- CSV tokenising, quoting, trimming and blank-line skipping are done by
  csv-parse and PapaParse, so they are not modelled. Neither is PapaParse's
  dynamic typing; its typed cells are the input.
  - PapaParse turns ISO date-time text into `Date` objects. The model has no
    object values.
- The CSV text of the export is not modelled: csv-stringify's rendering and
  quoting of the cells, and docs' `getDiaryAsLetterboxdListString`
  (`Papa.unparse` of every field, a library call).
- Browser wiring is not modelled: `downloadFile`, the `FileReader` callback,
  the click handler, the "No file selected." text and the radio-button
  visibility toggle. All of it is DOM interaction.
- The `__awaiter`/`__asyncValues` promise plumbing and `async`/`await` are not
  modelled. Every operation is synchronous.
- Parse errors are not modelled. In dist, `readDiary` rethrows an error raised
  by csv-parse (dist/index.js:75-80), so its promise rejects and the entries
  pushed so far are lost. The model's rows are always well formed.
- `Number()` is modelled for white space around an optional sign, digits, an
  optional decimal point with digits, and for the empty or blank string. The
  same conversion serves `==` and `>=` on the untrimmed PapaParse strings. Not
  covered:
  - exponents, hexadecimal, octal and binary (`"0b11"` is 3 in JavaScript,
    NaN here), and `Infinity`;
  - binary floating-point rounding (finite numbers are exact reals).
- Date parsing covers only the date-only forms of the ECMAScript format. Not
  covered:
  - expanded six-digit years;
  - the engine-specific fallback parsing of other text.
- String `>=` compares characters as Unicode scalar values. JavaScript
  compares UTF-16 code units. The two differ only beyond the Basic
  Multilingual Plane, and only when both ratings are strings.
- `Array.prototype.sort` is engine-provided. The model sorts by insertion with
  the same comparator, so only properties that follow from the comparator are
  stated.
- Letterboxd.LetterboxdData.SortDiaryByRating: promises the rating order only
  when every rating is absent or a finite number. NaN ratings, and string
  ratings mixed with numeric ones, make the comparator inconsistent: both
  orders of such a pair compare false (`JsValues.GreaterOrEqualOrder`).
  All-string and boolean ratings are left out as well, though the order would
  hold for them. For every diary only the permutation is stated.
- Letterboxd.GetLetterboxdDataForYearFirstWatches: states the descending
  order under the same condition as the sort.
