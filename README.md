# who-walks-for-water: `parseData`, modelled in Dafny

`parseData` in `who-walks-for-water/parse.js` turns the rows of the
Uganda household survey (Kamei 2022) into a small comma-separated count
table. It works in five steps:

1. It takes the distinct household ids of the whole input, in the order
   they first occur (`allHHids`).
2. It keeps only the rows from the Drought (1) and Normal (3) rainfall
   categories and drops seniors (demographic group 7).
3. It keeps a household only if, in every year, its members' individual
   hours (`fetch_water_ga`, with `null` read as 0) add up exactly to the
   household hours (`fetch_water`) on the household's first row of that
   year. Each kept row is annotated with `hhsize`, the number of the
   household's rows in the same year.
4. It rounds the individual hours down (`Math.floor`).
5. It counts the rows per rainfall category (Drought, then Normal), per
   distinct hour value (ascending) and per demographic group 1..6, adds a
   row total, and writes the table as text under the header
   `rainfallGroup, hours, total, 1, 2, 3, 4, 5, 6`.

The model follows that structure:

- `collections.dfy` (`Collections`) holds the sequence operations the
  script uses:
  - order-preserving `filter`;
  - `Array.from(new Set(..))`, as `Dedup`;
  - the numeric ascending `sort`.
- `text.dfy` (`Text`) holds `join`, the decimal text of whole numbers,
  and their inverses. The inverses are only there to state that the
  output can be read back.
- `survey.dfy` (`Survey`) holds the survey record, the two condition
  filters and the flooring step.
- `households.dfy` (`Households`) holds the household validation. It has
  a specification function (`ValidRecords`) and the `reduce`/`forEach`
  loops as methods proved equal to it.
- `tabulation.dfy` (`Tabulation`) holds the count table. It has a
  specification (`Table`, `Render`) and the `forEach` loops that build the
  text as methods proved equal to it.
- `pipeline.dfy` (`Pipeline`) holds `parseData` end to end and the
  properties of its output.

Each survey row is a `Survey.Record` with typed fields:

- the id and year are integers;
- the group and rainfall codes are integers;
- the individual hours are an optional real, where `None` stands for
  `null`;
- the household hours are a real.

A validated row is a `Survey.Annotated`, which pairs the row with its
`hhsize`.

## Model

| member | source | states |
|---|---|---|
| Survey.ConditionFilter | who-walks-for-water/parse.js:36-44 | the two `filter` passes keep exactly what one pass with both tests (rainfall category 1 or 3, group not 7) keeps: every copy of each such input row and none of the others, in input order |
| Collections.Filter | who-walks-for-water/parse.js:37-44 | `Array.prototype.filter`: an element is kept exactly when it is in the input and passes the test; never more elements than the input |
| Collections.FilterCounts | who-walks-for-water/parse.js:48-53 | `filter` keeps every copy of an element that passes the test and no copy of one that fails it |
| Collections.FilterPrefix | who-walks-for-water/parse.js:48-53 | `filter` keeps input order: what a prefix of the input keeps is a prefix of what the whole input keeps |
| Collections.FilterTwice | who-walks-for-water/parse.js:37-44 | filtering with one test and then another is filtering once with both |
| Pipeline.AllHouseholdIds | who-walks-for-water/parse.js:34 | the ids of the unfiltered input, each exactly once, listed in the order of their first occurrence |
| Collections.Dedup | who-walks-for-water/parse.js:34 | `Array.from(new Set(xs))`: no repetitions, the same members as the input, never longer |
| Collections.DedupFirstOccurrenceOrder | who-walks-for-water/parse.js:34 | the de-duplicated elements are ordered by where each first occurs in the input |
| Households.CheckYears | who-walks-for-water/parse.js:49-63 | the flag stays true exactly when every year of the household balances: for each distinct year, the sum of the individual hours (null as 0) equals the household hours of that year's first row |
| Households.BalancedByDistinctYears | who-walks-for-water/parse.js:51-52 | checking each distinct year once is the same as checking the year of every row |
| Households.ValidateHouseholds | who-walks-for-water/parse.js:47-75 | the `reduce` over the household ids produces exactly `ValidRecords`: household by household, in id order, all annotated rows of each balanced household |
| Households.ValidRecordsSound | who-walks-for-water/parse.js:47-75 | every validated row is a filtered row of a listed household that balances in every year, and its `hhsize` is the number of that household's filtered rows in its year |
| Households.HouseholdAllOrNothing | who-walks-for-water/parse.js:65-73 | with distinct ids, a household's validated rows are its whole annotated block when it is listed and balances, and none otherwise |
| Households.GroupedByHousehold | who-walks-for-water/parse.js:47-75 | the validated rows are grouped by household, and the households come in the order of the id list |
| Survey.FloorHours | who-walks-for-water/parse.js:77-81 | same length; only the individual hours change; each becomes a present whole number `v` with `v <= hours < v + 1` (null becomes 0) |
| Tabulation.HourAxis | who-walks-for-water/parse.js:87-89 | the axis is strictly ascending and holds exactly the hour values (null as 0) that occur among the rows |
| Collections.SortDistinct | who-walks-for-water/parse.js:89 | sorting distinct numbers gives a strictly ascending sequence with the same members |
| Tabulation.TabulateRow | who-walks-for-water/parse.js:93-107 | the group loop builds the row of one rainfall category and hour value: the six group counts, and a total equal to their sum |
| Tabulation.TabulateBlock | who-walks-for-water/parse.js:92-122 | the inner loop appends to the text, one line each, the rows of one rainfall category for every axis value in order |
| Tabulation.Tabulate | who-walks-for-water/parse.js:83-126 | the nested `forEach` loops build exactly `Render(Table(recs, HourAxis(recs)))`: the header, then one line per rainfall category and axis value |
| Tabulation.TableLayout | who-walks-for-water/parse.js:91-107 | the table has 2 × axis rows, first Drought then Normal, each block in axis order; each row has the six counts of its cell and their sum as its total |
| Tabulation.TableKeysAscending | who-walks-for-water/parse.js:91-92 | rows are strictly ordered by rainfall category and then hours, so no (rainfall, hours) pair repeats |
| Tabulation.RowTotalCounts | who-walks-for-water/parse.js:94-106 | a row's total is the number of rows of its rainfall category and hours whose group is one of 1..6 |
| Tabulation.TableGrandTotal | who-walks-for-water/parse.js:91-107 | over a repetition-free axis, the row totals add up to the number of Drought/Normal rows of groups 1..6 whose hours are on the axis |
| Tabulation.RenderReadsBack | who-walks-for-water/parse.js:84-121 | splitting the text at newlines gives the header and then one line per row; splitting a row line at commas gives exactly that row's fields |
| Tabulation.RowFieldsParse | who-walks-for-water/parse.js:111-121 | for whole hours, each field of a row line is the decimal text of its value: rainfall, hours, total, then the six counts |
| Text.SplitJoin | who-walks-for-water/parse.js:121 | `join` with a separator that occurs in no part is undone by splitting at that separator |
| Text.IntTextRoundTrip | who-walks-for-water/parse.js:109-121 | the decimal text of an integer parses back to that integer |
| Pipeline.ParseData | who-walks-for-water/parse.js:8-129 | the steps run in the source's order and return exactly `Output(data)`: the rendered table of the floored, validated, condition-filtered rows |
| Pipeline.ValidatedRecords | who-walks-for-water/parse.js:37-75 | every validated row is an input row of category 1 or 3, not a senior's, and from a household balanced in every year; its `hhsize` is its year's row count, at least 1 |
| Pipeline.HouseholdKeptIffBalanced | who-walks-for-water/parse.js:47-75 | a household's validated rows are exactly its filtered rows in input order, each annotated with its year's row count, when it balances in every year, and none when some year fails |
| Pipeline.ValidatedInFirstOccurrenceOrder | who-walks-for-water/parse.js:34-75 | the validated rows come household by household, in the order in which household ids first appear in the unfiltered input |
| Pipeline.OutputAxis | who-walks-for-water/parse.js:78-89 | the output's hour axis is strictly ascending and whole-numbered, and consists exactly of the floored hours of the validated rows |
| Pipeline.OutputGrandTotal | who-walks-for-water/parse.js:83-126 | every validated row of groups 1..6 is counted in exactly one cell: the row totals add up to the number of such rows |
| Pipeline.OutputReadsBack | who-walks-for-water/parse.js:83-126 | the returned text has 1 + 2 × axis lines, the header first, and every row line splits into the exact decimal fields of its row |

## Left out

- `process` (parse.js:131-154) is left out. It reads the CSV file with
  `csv-parser` and writes the output file, and both are I/O.
  `parseData`'s input is a parameter and its result is returned.
- The `+data[key]` coercion that `process` applies to every field is
  left out. Fields arrive already typed, so malformed numbers (`NaN`) are
  not modelled.
- Hours are exact reals, not IEEE doubles.
  - `ValidateHouseholds` and `CheckYears` compare exact sums. In the
    source, representation error in a left-to-right floating-point sum
    can reject a household whose decimal values do add up.
- The household hours are a plain number. The source's `!==` against a
  `null` household total, which is never equal, is not modelled.
- `NumberText`: JavaScript prints numbers of 10^21 and more in exponent
  form, and the model always writes plain decimal digits. Every hour
  value that reaches the table is whole, so this only matters for huge
  values.
- The `genderAgeGroups` gender and age payload and `genderAccessor` are
  left out.
  - `genderAccessor` is defined but never called, so a group code outside
    the mapping never causes a failure.
  - Rows of unmapped groups (for example 0 or 8) pass the filters and
    validation but land in no table cell.
- The `rainfallGroups` label table is left out. Only its two values used
  here appear, as `DROUGHT` (1) and `NORMAL` (3).
- The `result` array of entries is left out. It is filled but never read
  or returned.
- `actualTabularData` is an implicit global variable in the source. It is
  modelled as the local text of `Tabulate`.
