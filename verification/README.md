# Dog metrics: the record pipeline in Dafny

A model of the data core of a small browser application. The application keeps a
dataset of dog measurements: weight in pounds, age in weeks, height in inches,
sex, and name. It imports and exports the dataset as CSV, filters it, charts it
as a scatter plot grouped by sex, and shows it in a sortable table with a
delete button per row.

The model covers the following, as pure functions over immutable values:

- `Utils`: `num`, and `normalizeRecord`, which migrates legacy column names,
  coerces the three numeric fields and normalises sex.
- `Csv`: `detectDelimiter`, `parseCSV`, `headerMapFor`, `normalizeImported` and
  `toCsv`.
- `CsvRoundTrip`: export followed by import, i.e. which records come back and as what.
- `Chart`: `buildDatasets` (height range, `scaleRadius`, grouping by sex,
  emission in F, M, Other order) and `computeDomain`.
- `Main`: `getFiltered`, `updateNameOptions`, the add form, and the CSV import
  (append or replace). The export button writes `Csv.ToCsv` of the data.
- `Table`: the sort comparator, the sort-column toggle of `attachSorting`, the
  sorted view, and the delete button.

The supporting modules model the JavaScript built-ins the core relies on:

- `Values`: JavaScript values, plain objects with insertion-ordered keys, `String(v)` and truthiness.
- `Strings`: `trim`, ASCII case mapping, `split`, `join`, splitting on `/\r?\n/`, and quote doubling.
- `Numbers`: `parseFloat`, and the printing of numbers.
- `Seqs`: `filter`, `slice`, and the order-preserving subsequence relation.
- `Wrappers`: `Option`.

An operation that throws in JavaScript returns `None` in the model. This is
`toUpperCase` on a truthy non-string `sex`, in the chart and in the sex filters.

Three behaviours of the code are worth stating up front:

- `computeDomain` pads a one-valued field by `max(1, |v| * 0.05)`, so two
  records at 5 give `[4, 6]` (`Chart.DomainOfTwoFives`).
- `buildDatasets` compares the upper-cased raw `sex` with exactly `"F"` and
  `"M"`, so a record holding `"Male"` that was never normalised is charted under
  Other; only the normalised `"M"` is charted under M.
- `renderChart` ignores `colorBy`, and `buildDatasets` groups only by sex.

## Model

| member | source | states |
|---|---|---|
| Utils.Num | src/utils.js:2-5 | the result is null or a number; it is a number exactly when the input is a number or a string that `parseFloat` reads; a number passes unchanged and a string yields the value `parseFloat` reads |
| Utils.NumIdempotent | src/utils.js:2-5 | coercing a coerced value changes nothing |
| Utils.NumExamples | src/utils.js:2-5 | "abc", "", null, undefined, NaN and `true` all coerce to null; "12.5kg" coerces to 12.5; a number stays itself |
| Utils.NormalizeSex | src/utils.js:23-30 | normalised sex is null or a canonical upper-case string; it is null exactly when the value is null/undefined or its text is all white space |
| Utils.SexOfText | src/utils.js:24-27 | the sex rule on a text gives null exactly for blank text, otherwise a canonical upper-case string |
| Utils.NormalizeSexFixpoints | src/utils.js:23-30 | a sex value is left unchanged exactly when it is null or already canonical |
| Utils.NormalizeSexIdempotent | src/utils.js:23-30 | normalising sex twice is normalising it once |
| Utils.SexByFirstLetter | src/utils.js:24-27 | a trimmed text starting with f/F becomes "F", one starting with m/M becomes "M", any other is upper-cased |
| Utils.SexOfAnyValue | src/utils.js:23-27 | any value that is not null or undefined is stringified and trimmed first; a first letter f/F gives "F", m/M gives "M", anything else the upper-cased trimmed text |
| Utils.PaddedFemale | src/utils.js:24-25 | " female" normalises to "F" |
| Utils.PaddedSexF | src/utils.js:24-25 | a word starting with f or F behind one leading space is trimmed and normalises to "F" |
| Utils.SexOfLeadingF | src/utils.js:24-25 | any value whose trimmed text starts with f or F normalises to "F" |
| Utils.SexOfOtherText | src/utils.js:24-27 | a value whose trimmed text starts with neither f nor m keeps that text, upper-cased |
| Utils.SexOfWholeNumber | src/utils.js:23-27 | a whole number given as the sex is kept as its decimal text |
| Utils.NumberFive | src/utils.js:24-27 | the number 5 normalises to the string "5" |
| Utils.CanonicalLetters | src/utils.js:25-26 | "F" and "M" are canonical sex values |
| Utils.KeysDistinct | src/utils.js:11-21 | the five canonical keys are pairwise distinct and no legacy column name is canonical |
| Utils.MigrateName | src/utils.js:11 | only `name` may change; it takes the value of `Name` exactly when `Name` is truthy and `name` is falsy |
| Utils.MigrateAlias | src/utils.js:12-17 | only the canonical key may change; it takes the coerced legacy value exactly when the legacy column is set and the canonical one is not |
| Utils.Coerce | src/utils.js:19-21 | only the coerced key changes, and it then holds the coerced value |
| Utils.WriteSex | src/utils.js:23-30 | only `sex` changes, and it then holds the normalised sex |
| Utils.NormalizeRecord | src/utils.js:7-32 | a non-object gives `{}`; otherwise each numeric field is its migrated-then-coerced value, sex is normalised, name is migrated from `Name` when it should be, and every other key keeps its value |
| Utils.NormalizedNumbers | src/utils.js:19-21 | for an object, weight, age and height each end up a finite number or null |
| Utils.PipelineNumeric | src/utils.js:12-21 | the full sequence of writes leaves each numeric field at its migrated-then-coerced value |
| Utils.PipelineSex | src/utils.js:23-30 | the full sequence of writes leaves `sex` normalised from the input's `sex` |
| Utils.PipelineName | src/utils.js:11 | the full sequence of writes leaves `name` migrated from `Name` when it should be |
| Utils.PipelineOthers | src/utils.js:9-30 | the full sequence of writes leaves every non-canonical key's value alone |
| Utils.NormalizeRecordKeys | src/utils.js:9-30 | the output keeps every input key in order and holds the four keys always written |
| Utils.NameStep | src/utils.js:11 | the name migration keeps every key in place |
| Utils.AliasStep | src/utils.js:12-17 | a legacy migration keeps every key in place |
| Utils.AliasSteps | src/utils.js:12-17 | the three legacy migrations together keep every key in place |
| Utils.CoerceSteps | src/utils.js:19-30 | the coercions and the sex write keep every key and leave the four written keys present |
| Utils.CoerceGrow | src/utils.js:19-30 | the coercions and the sex write keep every key in place |
| Utils.CoerceHas | src/utils.js:19-30 | after the coercions and the sex write, the four written keys are present |
| Utils.NormalizeRecordIdempotent | src/utils.js:7-32 | normalising an object twice equals normalising it once exactly when no legacy numeric column holds a value `num` reads as a number while its canonical column holds a value other than null or undefined that `num` turns into null (non-numeric text, `""`, a boolean, NaN or an object) |
| Utils.SecondPass | src/utils.js:7-32 | without such a shadowed legacy column, a second normalisation is the identity |
| Utils.FirstPassFacts | src/utils.js:7-32 | after one pass, the name does not migrate again; the numeric fields are numbers or null and agree with any legacy column still migrating; sex is canonical |
| Utils.FirstPassAlias | src/utils.js:12-21 | after one pass, an unshadowed numeric field is a number or null and equals whatever its legacy column would migrate |
| Utils.FirstPassName | src/utils.js:11 | after one pass, `name` is truthy whenever `Name` is |
| Utils.AliasIdentity | src/utils.js:12-17 | a migration that would write the value already there changes nothing |
| Utils.CoerceIdentity | src/utils.js:19-21 | coercing a field that already holds a number or null changes nothing |
| Utils.ShadowedPasses | src/utils.js:12-21 | a shadowed numeric field is null after one pass, and a second pass gives it `num` of its legacy column, so the two passes differ |
| Utils.ShadowedWeightExample | src/utils.js:12-19 | `{weight_lbs: "abc", "Weight (lbs)": "5"}` is shadowed: the first pass writes null to `weight_lbs`, and the second migrates 5 over that null |
| Utils.ShadowedBy | src/utils.js:12-21 | a legacy column holding numeric text, with a canonical column holding non-numeric text, is shadowed |
| Utils.NonObjectNotIdempotent | src/utils.js:8 | a non-object normalises to `{}`, which then normalises to a record with four null fields, so the two differ |
| Csv.SampleLines | src/csv.js:9 | the sample is at most ten lines and none is empty |
| Csv.SampleLinesFrom | src/csv.js:9 | every sampled line is a line of the text |
| Csv.PieceCount | src/csv.js:11-12 | every line gives at least one piece |
| Csv.Scores | src/csv.js:8-12 | one score per candidate, in candidate order: the mean piece count at that candidate |
| Csv.DelimiterIndex | src/csv.js:8-16 | the chosen candidate has the highest score, and every earlier candidate scores strictly less (ties go to the earlier one) |
| Csv.ScanFromStart | src/csv.js:6-16 | scanning from best score -1 ends at the first maximal score |
| Csv.ScanFirstMax | src/csv.js:13-16 | the strict-greater scan keeps the first maximal score |
| Csv.ScoresAboveStart | src/csv.js:7 | the first score beats the starting score of -1 |
| Csv.DetectDelimiter | src/csv.js:4-19 | the result is one of comma, tab, semicolon and pipe; with no non-empty line in the first ten it is comma |
| Csv.MeanAtLeastOne | src/csv.js:11-12 | every candidate scores at least 1 |
| Csv.PieceCountBounds | src/csv.js:11 | lines without the delimiter give one piece each; any line holding it adds a piece |
| Csv.MeanOfAbsent | src/csv.js:11-12 | a candidate in no sampled line scores exactly 1 |
| Csv.MeanOfPresent | src/csv.js:11-12 | a candidate in some sampled line scores above 1 |
| Csv.ThirdIsMax | src/csv.js:13-16 | of four scores where the third is strictly largest, the maximum is the third |
| Csv.FirstIsMax | src/csv.js:13-16 | of four scores where none exceeds the first, the first maximal one is the first |
| Csv.CommaWithoutOtherDelimiters | src/csv.js:4-19 | a sample without tab, semicolon or pipe is read as comma-separated |
| Csv.SemicolonSample | src/csv.js:4-19 | a sample with semicolons and no comma, tab or pipe is read as semicolon-separated |
| Csv.DataLines | src/csv.js:23 | every line kept has some non-white character |
| Csv.TrimAll | src/csv.js:25 | each header name is trimmed, position by position |
| Csv.LastIndex | src/csv.js:31-33 | the index of the last occurrence, or -1 exactly when absent |
| Csv.Dedup | src/csv.js:31-33 | the keys are the header names, each once |
| Csv.ParseRow | src/csv.js:29-33 | the record's keys are the header names in order of first occurrence; each holds the trimmed cell under the last column of that name, or "" past the row's end; other keys are undefined |
| Csv.AssignValid | src/csv.js:31-33 | the forEach over the header builds a well-formed object |
| Csv.AssignKeys | src/csv.js:31-33 | the forEach over the header gives keys in order of first occurrence |
| Csv.AssignGet | src/csv.js:31-33 | each assigned name holds the cell of its last column |
| Csv.AssignSkip | src/csv.js:31-33 | a name other than the last one assigned reads as it did before that assignment |
| Csv.ParseCsv | src/csv.js:21-37 | no records for a blank text; otherwise one record per data line after the header |
| Csv.RowRecords | src/csv.js:28-35 | one record per line after the header |
| Csv.RowRecordAt | src/csv.js:28-35 | record i is the row parsed from data line i + 1 |
| Csv.ParseCsvRecord | src/csv.js:21-37 | record i of `parseCSV` is data line i + 1 split at the detected delimiter and read under the trimmed header |
| Csv.ParseCsvBlank | src/csv.js:24 | a text of blank lines parses to no records |
| Csv.ParseCsvOneLine | src/csv.js:24-26 | a text of one line (a header alone) parses to no records |
| Csv.LowerAll | src/csv.js:40-43 | every key is lower-cased, position by position |
| Csv.LowerIndexIsLast | src/csv.js:40-43 | the lower-case index maps a lower-case form to the last key with that form, and has an entry exactly when such a key exists |
| Csv.Pick | src/csv.js:44-50 | no pick exactly when no variant's lower-case form is in the index; otherwise the key indexed under the first variant that has an entry |
| Csv.PickFirstVariantLastKey | src/csv.js:39-50 | the pick is the last key matching the first matching variant, or none when no variant matches |
| Csv.LowerIndexOfKeys | src/csv.js:40-43 | distinct lower-case keys index to themselves |
| Csv.PickOwnKey | src/csv.js:44-50 | a lower-case first variant present as a key is picked |
| Csv.CanonicalHeaderMap | src/csv.js:51-57 | a record with exactly the five canonical keys maps each field to its own key |
| Csv.NormalizeImported | src/csv.js:60-74 | one output per input, in order: each normalises the five mapped fields of its input |
| Csv.ImportedShape | src/csv.js:60-74 | each imported record has the five canonical keys in order; the numeric fields are the picked columns coerced, sex is normalised, and name is the picked column or null |
| Csv.MappedFacts | src/csv.js:64-70 | the object built holds the five canonical keys, each with its picked column or null, and no legacy key |
| Csv.HeadersDistinct | src/csv.js:77 | the five headers are distinct and none is a legacy name |
| Csv.NormalizeCanonical | src/utils.js:7-32 | a record already holding the five keys and no legacy key keeps its key order; the numeric fields are coerced, sex normalised and name kept |
| Csv.NormalizeKeepsKeys | src/utils.js:9-30 | normalising a record that holds the five canonical keys adds no key |
| Csv.Cell | src/csv.js:81-87 | null or undefined becomes empty; a string holding a comma, quote or line feed is quoted, and undoubling its inside gives the string back; anything else is its `String` text |
| Csv.Cells | src/csv.js:80-88 | a row has one cell per header, in header order |
| Csv.Rows | src/csv.js:79-91 | one row per record, in record order |
| Csv.CellChars | src/csv.js:82-87 | a character that is not a quote and that `String` never writes for a non-string appears in a cell only if the value is a string holding it |
| Csv.RowChars | src/csv.js:80-89 | such a character is in no row whose fields all lack it |
| Csv.ToCsvLines | src/csv.js:76-93 | when no field holds a line feed, the text splits at line feeds into the header line followed by one row per record |
| Csv.KeyTextFixed | src/csv.js:25 | a canonical key is unchanged by trimming and lower-casing |
| Csv.KeyTextOmits | src/csv.js:77 | a canonical key holds only lower-case letters and underscores |
| Csv.HeadersAre | src/csv.js:77 | the header order is weight, age, height, sex, name |
| Csv.HeadersKeyText | src/csv.js:77 | every header is made of lower-case letters and underscores |
| Csv.JoinedKeys | src/csv.js:78 | splitting the joined keys at commas gives them back, and the join adds only commas |
| Csv.HeaderFacts | src/csv.js:78 | the header line splits at commas into the five headers and holds nothing else but commas |
| CsvRoundTrip.RoundTrip | src/csv.js:21-93 | exporting round-trippable records, then parsing and normalising the text, gives one record per record with the five canonical keys; each field comes back as it was, and an empty field comes back null (name: as "") |
| CsvRoundTrip.RoundTripAt | src/csv.js:21-93 | record i of the round trip has every field back |
| CsvRoundTrip.RoundTripRecord | src/csv.js:21-93 | field k of record i comes back |
| CsvRoundTrip.ParseCsvCount | src/csv.js:21-74 | the round trip gives back as many records as were exported |
| CsvRoundTrip.ExportReadsBack | src/csv.js:76-93 | the exported text splits back into its lines, none is dropped as blank, and it is read as comma-separated |
| CsvRoundTrip.ExportHeader | src/csv.js:25 | the header read back from an export is the five canonical names |
| CsvRoundTrip.ParsedExport | src/csv.js:28-35 | record i parsed from an export is row i's cells under the five headers |
| CsvRoundTrip.ParsedRow | src/csv.js:29-33 | a parsed row holds each header's cell |
| CsvRoundTrip.NumericBack | src/utils.js:2-5 | a number with a short decimal form, or an empty field, comes back through its cell as itself, or as null |
| CsvRoundTrip.SexBack | src/utils.js:23-30 | a canonical sex, or an empty field, comes back through its cell as itself, or as null |
| CsvRoundTrip.ImportedFields | src/csv.js:60-74 | importing a record with the five canonical keys coerces the numbers, normalises sex and keeps name |
| CsvRoundTrip.ImportedField | src/csv.js:60-74 | the same, field by field |
| CsvRoundTrip.RecordBack | src/csv.js:60-74 | one round-trippable record comes back through its row |
| CsvRoundTrip.FieldBack | src/csv.js:82-87 | one field comes back through its cell |
| CsvRoundTrip.RowSplits | src/csv.js:89 | a round-trippable row splits at commas into its cells |
| CsvRoundTrip.RowOmits | src/csv.js:80-89 | a round-trippable row holds no quote, line feed, carriage return, tab, semicolon or pipe |
| CsvRoundTrip.RowNonBlank | src/csv.js:89 | every row holds a comma, so none is blank |
| CsvRoundTrip.RowGood | src/csv.js:80-89 | the row of a round-trippable record survives reading |
| CsvRoundTrip.HeaderLineGood | src/csv.js:78 | the header line survives reading |
| CsvRoundTrip.CellsSafe | src/csv.js:82-87 | the cells of a round-trippable record are trimmed and hold no special character |
| CsvRoundTrip.PlainCell | src/csv.js:82-87 | the cell of a plain field is trimmed and safe, and a string is written as it is |
| CsvRoundTrip.RoundTrippablePlain | src/csv.js:82-87 | every exported field of a round-trippable record is plain |
| CsvRoundTrip.ExportLines | src/csv.js:78-91 | the export has one line more than there are records |
| CsvRoundTrip.ExportHead | src/csv.js:78 | the first line is the header line |
| CsvRoundTrip.ExportRow | src/csv.js:90 | line i past the header is record i - 1's row |
| CsvRoundTrip.ExportLineGood | src/csv.js:76-93 | every exported line survives reading |
| CsvRoundTrip.GoodLinesReadBack | src/csv.js:23 | lines that survive reading, joined with line feeds, split back into themselves and none is dropped |
| CsvRoundTrip.GoodLinesSplit | src/csv.js:92 | such lines split back at line feeds |
| CsvRoundTrip.NoCarriageReturns | src/csv.js:23 | lines without carriage returns lose nothing to `/\r?\n/` |
| CsvRoundTrip.GoodLinesKept | src/csv.js:23 | the blank-line filter keeps every such line |
| CsvRoundTrip.GoodLinesComma | src/csv.js:4-19 | a text of such lines is read as comma-separated |
| CsvRoundTrip.DedupDistinct | src/csv.js:31-33 | distinct header names keep their order as keys |
| CsvRoundTrip.TrimAllKeys | src/csv.js:25 | trimming canonical header names changes nothing |
| CsvRoundTrip.CommaNotBlank | src/csv.js:23 | a line holding a comma is not blank |
| Chart.FieldValuesMembers | src/chart.js:65-71 | a value is among the field's numbers exactly when some record holds it there |
| Chart.Min | src/chart.js:14 | the minimum is a member and no member is below it |
| Chart.Max | src/chart.js:15 | the maximum is a member and no member is above it |
| Chart.Pad | src/chart.js:74 | the pad is at least 1 and at least 5% of the value's magnitude |
| Chart.Domain | src/chart.js:62-78 | the domain is non-empty and covers every value; [0, 1] with no value; the value padded on both sides when all values are equal; otherwise exactly the smallest and largest value |
| Chart.DomainOfTwoFives | src/chart.js:73-75 | two records at 5 give [4, 6] |
| Chart.DomainIgnoresNonNumbers | src/chart.js:66-67 | a record without a number in the field does not change the domain |
| Chart.UpperOr | src/chart.js:35 | upper-casing `v \|\| d` fails exactly for a truthy non-string, and otherwise upper-cases the string or the default |
| Chart.GroupOf | src/chart.js:35-36 | no group (a throw) exactly for a truthy non-string sex; F or M exactly when the sex upper-cases to that letter |
| Chart.HeightRange | src/chart.js:9-22 | the range is ordered; [0, 1] with no numeric height; otherwise the smallest and largest height |
| Chart.RadiusBounds | src/chart.js:24-29 | every radius is in [3, 10]; 4 when not scaling or without a numeric height; 6 for a one-point range; 3 at the minimum and 10 at the maximum |
| Chart.RadiusExample | src/chart.js:24-29 | heights 10, 20 and 30 give radii 3, 6.5 and 10 |
| Chart.ExampleRange | src/chart.js:9-22 | heights 10, 20 and 30 span [10, 30] |
| Chart.ExampleHeights | src/chart.js:12-16 | the heights are read in record order |
| Chart.Push | src/chart.js:37 | the point goes at the end of its group and no other group changes |
| Chart.Emit | src/chart.js:46-58 | at most three series, none empty, each holding its group's points, in F, M, Other order |
| Chart.BuildDatasets | src/chart.js:2-60 | at most three non-empty series in F, M, Other order |
| Chart.PartitionFails | src/chart.js:31-38 | grouping fails exactly when some record throws |
| Chart.PartitionStep | src/chart.js:31-38 | an unplotted record changes nothing; a plotted one pushes its point to its group |
| Chart.PartitionSound | src/chart.js:31-38 | every point of a group comes from an earlier record of that group |
| Chart.PartitionComplete | src/chart.js:31-38 | every plotted record of a group has its point in the group |
| Chart.PartitionOrdered | src/chart.js:31-38 | a group's points are in record order |
| Chart.PointsStep | src/chart.js:31-38 | one step leaves a group alone or appends the record's point |
| Chart.PartitionBelow | src/chart.js:31-38 | the points of the first n records have indices below n |
| Chart.PartitionCount | src/chart.js:31-38 | the groups hold one point per plotted record |
| Chart.SeriesOfEmit | src/chart.js:46-58 | the series emitted for a group are exactly its points |
| Chart.SeriesLast | src/chart.js:46-58 | a lone group's series is its points |
| Chart.SeriesPiece | src/chart.js:46-58 | emitting a group in front leaves the other groups' series alone |
| Chart.BuildFails | src/chart.js:2-60 | `buildDatasets` throws exactly when some record is plotted and its sex is a truthy non-string |
| Chart.SeriesExact | src/chart.js:2-60 | a point is in series g exactly when it is the point of a plotted record of group g |
| Chart.SeriesOrdered | src/chart.js:31-58 | within a series, points are in record order |
| Chart.PointTotal | src/chart.js:2-60 | the three series hold one point per plotted record |
| Chart.OneSeriesEach | src/chart.js:31-58 | a plotted record is drawn in its own group's series and no other |
| Chart.UnplottedNotDrawn | src/chart.js:34 | a record without numeric coordinates is drawn nowhere |
| Main.NameText | src/main.js:43 | the name text is trimmed |
| Main.Run | src/main.js:37-43 | a test throws exactly when it is a sex test and the sex is a truthy non-string |
| Main.TryFilterFails | src/main.js:37-43 | filtering throws exactly when the test throws on some record |
| Main.TryFilterIsFilter | src/main.js:37-43 | when no test throws, the filtered records are `filter` by the records the test keeps |
| Main.TryFilterMembers | src/main.js:37-43 | the filtered records are exactly those that pass, each kept as many times as it occurs |
| Main.TryFilterSubseq | src/main.js:37-43 | the filtered records keep their order |
| Main.FilteredFails | src/main.js:31-46 | `getFiltered` throws exactly when the sex filter is not ALL and some sex is a truthy non-string |
| Main.FilteredMembers | src/main.js:31-46 | the result is exactly the records passing both filters, each kept as many times as it occurs in the data, so `filtered.length` counts every passing record |
| Main.FilteredSubseq | src/main.js:31-46 | the result keeps the dataset order |
| Main.FilteredAll | src/main.js:34-42 | ALL with no name filter returns the data itself |
| Main.SexFiltersPartition | src/main.js:36-40 | the F, M and OTHER filters select exactly the records the chart puts in those series |
| Main.SexFiltersThrowLikeChart | src/main.js:36-40 | a sex filter throws on a record exactly when the chart does |
| Main.NameTexts | src/main.js:25 | the name text of every record, in dataset order |
| Main.NameOptionsExact | src/main.js:24-26 | the options are distinct, and a name is one exactly when it is the non-empty name text of some record |
| Main.Selection | src/main.js:28 | the previous selection is kept exactly when it is ALL or still an option; otherwise the selection becomes ALL |
| Main.SelectedNameMatches | src/main.js:21-46 | a kept name selection filters to at least one record |
| Main.NameFilterKeeps | src/main.js:41-44 | filtering by a record's name text keeps that record |
| Main.NameOnly | src/main.js:34-44 | with sex ALL, only the name test filters |
| Main.NameTestKeeps | src/main.js:43 | the name test keeps every record with that name text |
| Main.Add | src/main.js:79-89 | adding keeps the data and appends one normalised form record at the end |
| Main.AddedRecord | src/main.js:82-88 | the added record has the five canonical keys; numbers coerced, sex normalised, name as entered |
| Main.Import | src/main.js:98-115 | a text with no record leaves the data alone; append keeps the data and adds every record; replace gives as many records as were parsed (`Main.ImportedRecords` gives their contents) |
| Main.ImportedRecords | src/main.js:107-109 | imported record i is the normalised record i of the parse, after the data when appending |
| Main.ImportEmptyExport | src/main.js:102-105 | importing the export of no records changes nothing |
| Table.CompareNulls | src/table.js:13-15 | two empties tie; an empty cell sorts after a value ascending and before it descending |
| Table.CompareValues | src/table.js:16-17 | two numbers compare by value in the sort direction; anything else compares by the collation of their texts |
| Table.DescendingSwaps | src/table.js:10-18 | descending order is ascending order with the rows swapped |
| Table.CompareAntisymmetric | src/table.js:10-18 | with an antisymmetric collation, swapping the rows flips a positive comparison to a negative one |
| Table.Click | src/table.js:49-54 | a click sorts on its column; ascending for a new column, the direction flipped for the same one |
| Table.ClickTwice | src/table.js:49-54 | two clicks on the sorted column restore the state; two on a new one sort it descending |
| Table.ClickOtherColumn | src/table.js:49-54 | a click on another column forgets the direction |
| Table.InsertPerm | src/table.js:10 | inserting adds exactly the one record |
| Table.InsertOrdered | src/table.js:10-18 | inserting into an ordered list keeps it ordered |
| Table.SortPerm | src/table.js:7-10 | the sorted copy holds the same records, as many times each |
| Table.SortOrdered | src/table.js:9-18 | the sorted copy is in comparator order |
| Table.InitialView | src/main.js:66-67 | the page starts unsorted, showing the data in its own order, and the first click on a column sorts it ascending |
| Table.ViewPerm | src/table.js:7-19 | the table shows every record exactly as often as the data holds it |
| Table.ViewOrdered | src/table.js:9-19 | with a sort column set, the shown rows are in comparator order |
| Table.Delete | src/table.js:37 | `splice(i, 1)` removes position i and shifts the rest down; an index past the end removes nothing |
| Table.DeleteRemovesOne | src/table.js:37 | deleting removes one occurrence of the record at i and nothing else |
| Table.DeleteSubseq | src/table.js:37 | the records left keep their order |
| Table.DeleteRowUnsorted | src/table.js:21-37 | unsorted, the record removed is the one shown on the clicked row |
| Table.DeleteRowMismatch | src/table.js:21-37 | sorted by weight, clicking the first shown row (weight 1) removes the record of weight 2 |
| Table.IndexOf | src/table.js:37 | the first position holding the record |
| Table.DeleteShownRemovesShown | src/table.js:21-37 | deleting the shown row removes the record shown there, in any sort order |
| Table.DeleteShownFixesMismatch | src/table.js:21-37 | in that example the record of weight 1 is the one removed |
| Values.Set | src/utils.js:11 | a write sets its key, leaves every other key alone, appends a new key and keeps an old key's place |
| Values.SetSame | src/utils.js:19 | writing back the value a key holds changes nothing |
| Values.RecordOfFacts | src/csv.js:64-70 | an object literal with distinct keys is well formed, holds each value under its key and nothing else |
| Values.ToStrChars | src/csv.js:87 | in the model, `String` of a number, boolean, null, undefined or plain object (`"[object Object]"`) writes only digits, letters, minus, point, brackets and spaces |
| Numbers.ParseFloat | src/utils.js:3 | `parseFloat` reads a number exactly when, after white space and a sign, the text starts with a digit or a point and a digit |
| Numbers.ParseUnsigned | src/utils.js:3 | an unsigned decimal reads as a non-negative number exactly when it starts like one |
| Numbers.LeadingDigits | src/utils.js:3 | the longest run of leading digits |
| Numbers.ParseFloatIgnoresSuffix | src/utils.js:3 | "12.5kg" reads as 12.5 |
| Numbers.ParseFloatNaN | src/utils.js:3 | "abc", "" and " -." read as NaN |
| Numbers.NatToString | src/csv.js:87 | a natural number prints as digits with no leading zero, whose value is the number |
| Numbers.NumToString | src/csv.js:87 | a number prints as a non-empty numeral: an optional minus, digits and a point |
| Numbers.IntegralPrint | src/csv.js:87 | an integer prints without a fraction |
| Numbers.FractionDigitsValue | src/csv.js:87 | the printed fraction digits of a terminating fraction read back as the fraction |
| Numbers.PrintThenParse | src/csv.js:87 | a number with at most twenty fraction digits, printed and then read by `parseFloat`, gives itself back |
| Numbers.ParseNumeral | src/utils.js:3 | an optionally signed numeral reads as its signed decimal value |
| Numbers.IntegersAreShortDecimals | src/csv.js:87 | every integer prints and reads back exactly |
| Strings.TrimStart | src/csv.js:23 | leading white space is dropped and nothing else |
| Strings.TrimEnd | src/csv.js:23 | trailing white space is dropped and nothing else |
| Strings.Trim | src/csv.js:23 | the result is trimmed, no longer, and empty exactly when the text is all white space |
| Strings.TrimOfTrimmed | src/csv.js:25 | trimming a trimmed text changes nothing |
| Strings.Upper | src/utils.js:24 | upper-casing maps each character in place |
| Strings.Lower | src/csv.js:41 | lower-casing maps each character in place |
| Strings.UpperKeepsTrimmed | src/utils.js:24 | upper-casing keeps a text trimmed and is idempotent |
| Strings.Split | src/csv.js:29 | one piece more than there are separators; no piece holds the separator; joining the pieces gives the text back |
| Strings.SplitJoin | src/csv.js:89 | splitting a join of separator-free pieces gives the pieces back |
| Strings.SplitNoSeparator | src/csv.js:29 | a text without the separator is one piece |
| Strings.SplitAfterPiece | src/csv.js:29 | a separator-free piece followed by the separator splits off as the first piece |
| Strings.JoinChars | src/csv.js:89 | joining adds no character but the separator |
| Strings.SplitLines | src/csv.js:23 | one line more than there are line feeds, and no line holds a line feed |
| Strings.SplitLinesPlain | src/csv.js:23 | without carriage returns the lines are the pieces between line feeds |
| Strings.LoneCarriageReturn | src/csv.js:23 | a text without a line feed is one line, carriage returns included |
| Strings.DoubleQuotes | src/csv.js:85 | doubling adds one character per quote |
| Strings.UndoubleDoubleQuotes | src/csv.js:85 | undoubling the doubled text gives it back |
| Strings.DoubleQuotesChars | src/csv.js:85 | doubling adds no character but quotes |
| Seqs.FilterMembers | src/csv.js:23 | `filter` keeps exactly the elements that pass |
| Seqs.FilterCount | src/main.js:37-43 | `filter` keeps every occurrence of an element that passes and none of one that fails |
| Seqs.FilterIsSubseq | src/csv.js:23 | `filter` keeps the order |
| Seqs.FilterAll | src/csv.js:23 | when every element passes, `filter` changes nothing |
| Seqs.Take | src/csv.js:9 | `slice(0, n)` is the first n elements, or all of them |
| Seqs.SubseqSkip | src/table.js:37 | removing one element keeps the rest in order |

## Left out

- DOM rendering, Chart.js options, the colour map, labels and tooltips, and `state.js`.
- Persistence with `saveData` and `loadData`, the reset button, `alert`, and the file download.
- The `confirm` dialog: the choice to append or replace is the parameter `append` of `Main.Import`.
- Reading the file and the form: the form fields are the parameter `Main.Form`.
- A missing name filter select is read as the filter value "".
- Floating point: numbers are exact reals. A finite number is `Number`, and NaN is its own value. ±Infinity has no value of its own and is folded into NaN. Every record reaches the chart and the table through `num` (src/utils.js:2-5), which turns ±Infinity into null, so no record the program builds holds it. The code itself would treat ±Infinity as a number: src/chart.js:13 and :34 test only `typeof` and `isNaN`, so an infinite height would enter the height range and an infinite coordinate would be plotted, and src/table.js:16 would order Infinity above every finite number, where the model's NaN does not.
- The chart's padding `|v| * 0.05` and its interpolation `3 + t * 7` are exact.
- Numbers.ParseFloat: no exponent form ("1e3" reads as 1) and no "Infinity". The rest of the grammar is modelled: white space, sign, digits, fraction.
- Numbers.NumToString: JavaScript's shortest round-trip formatting is not modelled. The model writes the integer part and up to twenty fraction digits, so `PrintThenParse` covers short decimals only.
- Strings.Upper: only ASCII letters change case. `trim` uses the JavaScript white-space set.
- Strings.Lower: only ASCII letters change case. JavaScript's `toLowerCase` also maps letters such as the Kelvin sign U+212A to "k", so a header spelled with such a letter, which `headerMapFor` matches at src/csv.js:41 and :46, is not matched by the model.
- Values.Record: integer-like keys, which JavaScript lists first among own keys, are kept in insertion order. Arrays and objects held in a field are one value, `Compound`. A write to the key `__proto__` is modelled as creating an own key; in JavaScript `rec[h] = …` (src/csv.js:32) calls the prototype setter, which ignores a string, so `Csv.ParseRow`'s `rec.keys == Dedup(header)` does not hold of a header named `__proto__`. The imported records are unaffected, since `normalizeImported` builds fresh objects with the five canonical keys.
- Values.ToStr: `String` of an array (its elements joined with commas) and the exponent form of large numbers (`1e+21`) are not modelled; a `Compound` prints as `[object Object]`. src/csv.js:84 quotes only strings, so an array field holding a comma or line feed is written unquoted; `Values.ToStrChars`, `Csv.CellChars`, `Csv.RowChars` and `Csv.ToCsvLines` hold only for fields that are not arrays.
- Main.NameOptions: the `localeCompare` sort of the options is left out. The options are distinct and kept in first-appearance order. Only membership and distinctness are stated.
- Table.Compare: `localeCompare` is a parameter `loc`, of which only the sign is used. Ordering is proved for any antisymmetric collation.
- Table.Sort: `Array.prototype.sort` is modelled as a stable insertion sort. For an inconsistent comparator, JavaScript's result is implementation-defined.
- CsvRoundTrip.RoundTrippable: quoted fields are not parsed back. `parseCSV` has no quote support, so a field holding a comma, quote or line feed does not survive, and one holding a tab, semicolon or pipe may change the detected delimiter; such fields are excluded.
- `colorBy` has no effect in the chart code and is not modelled.

## Findings

| source | as written | input that shows it | evidently intended | confidence | as-written member | corrected member |
|---|---|---|---|---|---|---|
| src/table.js:29-37 | the delete button carries the row index of the sorted view, and `state.data.splice(i, 1)` applies it to the unsorted data | data `[w=2, w=1]` sorted ascending by weight; the first row shows w=1; clicking its Delete removes w=2 | remove the record shown on the clicked row | not executed | Table.DeleteRowMismatch | Table.DeleteShownRemovesShown |
