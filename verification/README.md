# data_health in Dafny

A model of the two batch scripts of `data_health`, which turn French
public-health extracts (weekly emergency-visit, hospitalisation and
SOS-médecins rates per region and age class) into one analysis table.

- **Stage A** (`scripts/merge_csv.py`) reads every CSV file of the input
  directory in sorted-name order. For each file it derives a *reason* label
  from the file name and maps the file's own columns onto seven canonical
  fields (`date_semaine`, `region`, `classe_age`, three rates, `raison`).
  The date comes from the first day of the week, else from an ISO week label
  `YYYY-SWW`, else from 1 January of the year, else it is missing. The
  per-file frames are then concatenated. An empty directory is fatal.
- **Stage B** (`scripts/prepare_dataset.py`) keeps the Île-de-France,
  all-ages rows. It fills a missing SOS-médecins rate with 0, drops rows
  without an emergency-visit rate and re-reads the date. Then it derives
  `annee` and `mois` (Gregorian year and month) and `semaine` (ISO week
  number). Every step runs only when its column exists.

Modules, one per concern:

| file | module | contents |
|---|---|---|
| `wrappers.dfy` | `Wrappers` | `Option`, `Result` |
| `seqs.dfy` | `Seqs` | `Filter`, `MapSeq`, subsequences, fusion lemmas |
| `strings.dfy` | `Strings` | prefixes and suffixes, `Split`/`Join`, decimal digits, lexicographic order |
| `sorting.dfy` | `Sorting` | insertion sort by a string key (`sorted(...)`) |
| `calendar.dfy` | `Calendar` | proleptic Gregorian dates and Python's day ordinals (0001-01-01 is day 1) |
| `isoweeks.dfy` | `IsoWeeks` | Python's `date.fromisocalendar` and `date.isocalendar` |
| `tables.dfy` | `Tables` | cells, records, tables, the opaque date parser |
| `merge_csv.dfy` | `MergeCsv` | stage A |
| `prepare_dataset.dfy` | `PrepareDataset` | stage B |
| `pipeline.dfy` | `Pipeline` | stage A's rows as stage B's input, and the round trip across the two stages |
| `scenarios.dfy` | `Scenarios` | worked examples on 2021 dates |

A data frame is a `Table`: an ordered sequence of column names and a
sequence of rows, each row a map from column name to `Cell`. A `Cell` is a
pandas scalar: missing (`NaN`/`NA`/`NaT`), text, integer, real or date.
`pd.to_datetime(..., errors="coerce")` is pandas' free-text date parser. It
is a parameter `parse: Cell -> Option<CivilDate>`, where `None` is `NaT`.
The model states everything that holds for every such parser.

Some facts of the code that the model follows:

- The known-suffix test of `reason_from_name` is case-sensitive. The final
  `.csv` test lower-cases the name first. A `.CSV` name matching no known
  suffix therefore loses its last four characters.
- `iso_week_to_date` accepts any decimal year and week, not only a 4-digit
  year and a 1–2 digit week: `int()` decides, not the shape of the label.
  It gives `NaT` for a week outside the year's 52 or 53 weeks, and for a
  year outside 1..9999, because `date.fromisocalendar` raises there. The
  Monday of an existing week never lies past 9999-12-31
  (`IsoWeeks.MondayOfEveryWeek`).
- `Année` is cast with `astype("Int64")`. An integral float casts. A string
  casts through `int()`, so a string of decimal digits casts and gives its
  value. A fractional float, any other text or a date raises and ends the
  run. This is `MergeError.YearNotInteger`. A missing year becomes the text
  `<NA>`, and the parser maps `<NA>-01-01` as it likes.
- `pick_first_column` also scans the columns the loop has already added
  (`raison`, `date_semaine`, `region`, `classe_age`). None of them starts
  with a rate prefix, so scanning only the file's own columns is the same.
- `sorted(BASE.glob("*.csv"))` compares paths in one directory, which is
  comparing their base names by code point. The model sorts the files by
  name in that order.
- `annee` is the Gregorian year and `semaine` the ISO week, so they can
  disagree: 1 January 2021 gets `annee` 2021 and `semaine` 53
  (`Scenarios.YearBoundaryFields`).

## Model

| member | source | states |
|---|---|---|
| MergeCsv.CsvExtensionLetters | scripts/merge_csv.py:22 | `name.lower().endswith(".csv")` holds iff the name ends in a dot followed by c, s and v, each in either case |
| MergeCsv.StripSuffixes | scripts/merge_csv.py:19-22 | the result is a prefix of the name; the first suffix the name ends with is removed exactly; with no suffix matching, a case-insensitive `.csv` name loses its last four characters and any other name is unchanged |
| MergeCsv.ReasonFromName | scripts/merge_csv.py:12-22 | the reason is a prefix of the name; for a name ending in a known suffix, reason + suffix == name; with no known suffix, the `.csv` fallback above |
| MergeCsv.AtMostOneSuffix | scripts/merge_csv.py:14-18 | no name ends with two different known suffixes, so the order in which they are tried does not matter |
| MergeCsv.KnownSuffixesEndInCsv | scripts/merge_csv.py:14-18 | each of the three known suffixes ends in `.csv` |
| MergeCsv.KnownSuffixIsCsvName | scripts/merge_csv.py:14-22 | every name ending in a known suffix is a `.csv` name |
| MergeCsv.ReasonFixedPoint | scripts/merge_csv.py:19-22 | a name that is not a `.csv` name in any letter case is its own reason |
| MergeCsv.ReasonIdempotent | scripts/merge_csv.py:12-22 | extracting the reason from a reason that does not end in `.csv` changes nothing |
| MergeCsv.ReasonOfLabelledName | scripts/merge_csv.py:14-21 | a label followed by a known suffix gives the label back (e.g. `2021` + the first suffix gives `2021`) |
| MergeCsv.IsoWeekToDate | scripts/merge_csv.py:25-35 | non-text gives no date; a date is returned iff the text splits on `-S` into exactly two digit strings whose year is in 1..9999 and whose week is between 1 and that ISO year's week count; the date returned has ISO calendar (year, week, Monday) |
| MergeCsv.WeekLabelParts | scripts/merge_csv.py:30-32 | a label `YYYY-SWW` splits on `-S` into exactly two digit strings that read back as the year and the week |
| MergeCsv.WeekLabelRoundTrip | scripts/merge_csv.py:25-35 | the label `YYYY-SWW` of every existing ISO week reads back as the Monday of exactly that week |
| MergeCsv.PickFirstColumn | scripts/merge_csv.py:38-42 | no column iff none starts with the prefix; otherwise a column that starts with the prefix and has no earlier column that does |
| MergeCsv.FirstWithPrefixUnique | scripts/merge_csv.py:38-42 | the first column with a prefix is unique |
| MergeCsv.ChooseDateSource | scripts/merge_csv.py:50-58 | priority: first day of the week, else week label, else year, else none, each as an iff over the file's columns |
| MergeCsv.RowDate | scripts/merge_csv.py:50-58 | a row's date is the parsed first day of the week if the file has that column, else the converted week label, else the parsed 1 January of the cast year, else missing |
| MergeCsv.CopyColumn | scripts/merge_csv.py:61-69 | `region` and `classe_age` are the row's cell under the source column when the file has that column, and missing otherwise |
| MergeCsv.MeasureCell | scripts/merge_csv.py:72-78 | a rate is missing when no column has its prefix, and otherwise is the row's cell in the first column that has it |
| MergeCsv.YearText | scripts/merge_csv.py:56 | a missing year becomes `<NA>`; an integer becomes text that reads back as it when it is not negative and as no natural number when it is; a float casts iff it is integral, with the same text as its integer; a string casts iff it is a string of decimal digits, and gives text of the same value; a date never casts |
| MergeCsv.YearTextAgrees | scripts/merge_csv.py:56 | a year gives the same text whether it was read as an integer, an integral float or a string of its digits |
| MergeCsv.NormalizeRow | scripts/merge_csv.py:49-78 | `raison` is the reason of the file name; `date_semaine` follows the date-source priority with the parser, the week-label converter or the year's 1 January; region and age class are the source cells or missing; each rate is missing when no column has its prefix and otherwise is the cell of the first column with the prefix |
| MergeCsv.NormalizeFile | scripts/merge_csv.py:46-92 | fails iff the date comes from `Année` and some year does not cast, and then names the file; otherwise one canonical row per source row, in order, each with the file's reason |
| MergeCsv.NormalizeAll | scripts/merge_csv.py:45-95 | fails iff some file fails, with a year-cast error; otherwise the row count is the sum of the files' row counts |
| MergeCsv.SameFailures | scripts/merge_csv.py:7 | sorting the files does not change whether some file fails |
| MergeCsv.Merge | scripts/merge_csv.py:7-9 | an empty file list is fatal (`NoCsvFiles`) and is the only input giving that error; the run fails iff the list is empty or some file fails; on success the merged row count is the sum of all files' row counts |
| MergeCsv.NormalizeAllBlocks | scripts/merge_csv.py:95 | each file's frame appears whole in the concatenation, right after the rows of the files before it |
| MergeCsv.MergeInSortedOrder | scripts/merge_csv.py:95 | the merged table is the files' frames in sorted-name order: the sorted list is a permutation of the input, ordered by name, and file k's frame sits after the rows of files 0 .. k-1 |
| Seqs.FilterMultiplicity | scripts/prepare_dataset.py:15 | boolean row selection only removes copies, keeps every copy of a row that passes and no copy of a row that fails |
| Sorting.SortBy | scripts/merge_csv.py:7 | the result is ordered by the key and is a permutation of the input |
| Sorting.SumSort | scripts/merge_csv.py:7 | sorting does not change the total of a per-file count |
| Strings.Split | scripts/merge_csv.py:30 | at least one part; joining the parts with the separator gives the text back; no part contains the separator |
| Strings.SplitAround | scripts/merge_csv.py:30 | two separator-free pieces joined by the separator split back into exactly those two |
| Strings.ParseNat | scripts/merge_csv.py:31-32 | a value iff the text is a non-empty string of decimal digits, and then the digits' value |
| Strings.ParseShowNat | scripts/merge_csv.py:31-32 | reading back the decimal digits of n gives n |
| Strings.LeadingZero | scripts/merge_csv.py:32 | a leading zero does not change the value of a week number (`S01` is week 1) |
| Calendar.Ordinal | scripts/merge_csv.py:33 | the day number of a valid date lies inside its year's range of day numbers and within 1..3652059 |
| Calendar.OrdinalOfFirstDay | scripts/merge_csv.py:33 | 0001-01-01 is day number 1 |
| Calendar.OrdinalNextDay | scripts/merge_csv.py:33 | every valid date but 9999-12-31 has a valid next day (by day, month and year), whose day number is one more; with `OrdinalOfFirstDay` this makes `Ordinal` a count of days from 0001-01-01, as `toordinal` is |
| Calendar.FromOrdinal | scripts/merge_csv.py:33 | every day number in range is the day number of the date returned |
| Calendar.FromOrdinalOrdinal | scripts/merge_csv.py:33 | converting a date to its day number and back gives the date |
| Calendar.DaysBeforeYearClosedForm | scripts/merge_csv.py:33 | counting days year by year agrees with Python's 365-per-year-plus-leap-days formula |
| IsoWeeks.Week1Monday | scripts/merge_csv.py:33 | `_isoweek1monday`: week 1 of a year starts on a Monday, and the seven days from it contain 4 January |
| IsoWeeks.Week53BySpacing | scripts/merge_csv.py:33 | the week-53 test of `fromisocalendar` holds iff the next year's week 1 starts 53 weeks after this year's, and fails iff it starts 52 weeks after |
| IsoWeeks.WeekOneMondayFrom | scripts/merge_csv.py:33 | week 1 starts on the Monday of the week holding the year's fourth day of January |
| IsoWeeks.WeekOneStep | scripts/merge_csv.py:33 | week 1 of the next ISO year starts 52 or 53 whole weeks after week 1 of this one |
| IsoWeeks.FromIsoCalendar | scripts/merge_csv.py:33 | `date.fromisocalendar`: a date iff (year, week, day) is a valid ISO week date whose day number is at most 9999-12-31's; the date's day number is the ISO date's |
| IsoWeeks.IsoCalendar | scripts/prepare_dataset.py:33 | `date.isocalendar`: a valid ISO week date, within one year of the date's own year, with the date's day number |
| IsoWeeks.IsoOrdinalInjective | scripts/prepare_dataset.py:33 | different valid ISO week dates have different day numbers |
| IsoWeeks.FromIsoCalendarRoundTrip | scripts/merge_csv.py:33 | the date `fromisocalendar` returns has exactly the requested ISO week date |
| IsoWeeks.IsoCalendarRoundTrip | scripts/prepare_dataset.py:33 | `fromisocalendar` of a date's ISO week date is that date |
| IsoWeeks.IsoCalendarInjective | scripts/prepare_dataset.py:33 | two dates with the same ISO week date are equal |
| IsoWeeks.MondayOfEveryWeek | scripts/merge_csv.py:33 | the Monday of (year, week) exists iff the year is in 1..9999 and the week is between 1 and the year's week count, and its ISO week date is (year, week, 1) |
| PrepareDataset.Prepare | scripts/prepare_dataset.py:8-9 | a missing input is the only failure; otherwise the output has no more rows than the input |
| PrepareDataset.KeepEqual | scripts/prepare_dataset.py:14-17 | with the column present, the rows holding the value are kept, as a subsequence, with every duplicate: each row occurs in the result as often as in the input if it holds the value and not at all otherwise; without the column the table is unchanged |
| PrepareDataset.FillCell | scripts/prepare_dataset.py:21 | a missing cell becomes the fill value, a present one is kept, and the other cells are untouched |
| PrepareDataset.FillNull | scripts/prepare_dataset.py:20-21 | with the column present, every missing cell of it is filled, every present cell is kept, and nothing else changes; without it the table is unchanged |
| PrepareDataset.DropNull | scripts/prepare_dataset.py:23-24 | with the column present, the rows with a value in it are kept, as a subsequence, with every duplicate: each row occurs in the result as often as in the input if it has a value there and not at all otherwise; without the column the table is unchanged |
| PrepareDataset.Reparse | scripts/prepare_dataset.py:27 | the result is a date or missing, and a date or a missing value is kept as it is |
| PrepareDataset.ReparseRow | scripts/prepare_dataset.py:27 | only `date_semaine` changes, and it becomes the re-read date |
| PrepareDataset.ReparseDates | scripts/prepare_dataset.py:26-27 | with the column present, every `date_semaine` becomes a date or missing, dates are kept and other cells are untouched; without it the table is unchanged |
| PrepareDataset.DeriveCalendarRow | scripts/prepare_dataset.py:30-33 | `annee` and `mois` are the Gregorian year and month of a date and `semaine` its ISO week; a missing date gives three missing fields; other cells are untouched |
| PrepareDataset.AddColumn | scripts/prepare_dataset.py:31-33 | assigning a column keeps the existing columns in place and appends it only when it is new |
| PrepareDataset.DeriveCalendar | scripts/prepare_dataset.py:30-33 | with `date_semaine` present, every row gets its calendar fields and the three columns are added; without it the table is unchanged |
| PrepareDataset.PrepareTable | scripts/prepare_dataset.py:13-33 | stage B never adds rows |
| PrepareDataset.Enrich | scripts/prepare_dataset.py:20-33 | a surviving row, after filling, re-reading and deriving, is a prepared row |
| PrepareDataset.EnrichKeepsDate | scripts/prepare_dataset.py:26-33 | a row that already holds a date keeps it, and gets that date's year, month and ISO week |
| PrepareDataset.ScopeFilter | scripts/prepare_dataset.py:14-17 | the region filter then the age-class filter keep exactly the rows in scope |
| PrepareDataset.PrepareCharacterization | scripts/prepare_dataset.py:13-33 | with all its columns, stage B's rows are, in order and one for one, the enriched input rows that are in scope and have an emergency-visit rate |
| PrepareDataset.PrepareColumns | scripts/prepare_dataset.py:30-33 | with all its columns, the output's columns are the input's, in place, then whichever of `annee`, `mois`, `semaine` are new; a name is an output column iff it is an input column or one of those three |
| PrepareDataset.PreparedRows | scripts/prepare_dataset.py:13-33 | every output row is in scope, has both rates, a date or none, and calendar fields that agree with that date |
| PrepareDataset.EnrichedSurvivors | scripts/prepare_dataset.py:13-33 | any sequence that enriches the surviving rows one for one, in order, contains the enrichment of every surviving row and nothing that is not one |
| PrepareDataset.PrepareRowOrigins | scripts/prepare_dataset.py:13-24 | a row is in the output iff it is the enrichment of an input row in scope with an emergency-visit rate |
| PrepareDataset.PrepareWithoutColumns | scripts/prepare_dataset.py:14-30 | with none of the columns it looks for, stage B passes the table through unchanged |
| PrepareDataset.CalendarColumnsIdempotent | scripts/prepare_dataset.py:31-33 | adding the calendar columns to a table that has them adds nothing |
| PrepareDataset.EnrichFixesPrepared | scripts/prepare_dataset.py:20-33 | stage B leaves a prepared row as it is |
| PrepareDataset.DeriveFixesPrepared | scripts/prepare_dataset.py:30-33 | deriving the calendar fields of a prepared row again gives the same row |
| PrepareDataset.PreparedSurvivorsFixed | scripts/prepare_dataset.py:13-33 | when every input row is prepared, the enriched survivors are the input rows themselves |
| PrepareDataset.PrepareFixesPrepared | scripts/prepare_dataset.py:13-33 | stage B leaves a table of prepared rows with the calendar columns as it is |
| PrepareDataset.PrepareIdempotent | scripts/prepare_dataset.py:13-33 | running stage B on its own output changes nothing |
| Pipeline.CanonicalRecord | scripts/merge_csv.py:80-92 | a canonical row becomes a record with exactly the seven canonical columns, which reads back as the same row |
| Pipeline.MergedTable | scripts/merge_csv.py:95 | the merged table has the seven canonical columns in order, one well-formed record per row that reads back as that row, and every column stage B looks for |
| Pipeline.RunPipeline | scripts/prepare_dataset.py:8-33 | the two stages fail iff stage A fails, with stage A's error; on success no more rows than the sources hold, all prepared |
| Pipeline.PipelineRows | scripts/prepare_dataset.py:13-33 | the end-to-end rows are the enriched merged rows that survive stage B, in merged order |
| Pipeline.WeekLabelGivesSemaine | scripts/prepare_dataset.py:33 | a date stage A read from a `YYYY-SWW` label gets `semaine` equal to WW in stage B |
| Pipeline.WeekLabelRoundTripThroughStages | scripts/prepare_dataset.py:33 | the label of ISO week `week` comes out of stage B as `semaine` == `week` |
| Scenarios.NewYearsDay2021 | scripts/prepare_dataset.py:33 | 1 January 2021 is Friday of ISO week 53 of 2020 |
| Scenarios.FirstMonday2021 | scripts/prepare_dataset.py:33 | 4 January 2021 is Monday of ISO week 1 of 2021 |
| Scenarios.Week1Of2021Label | scripts/merge_csv.py:26 | week 1 of 2021 is labelled `2021-S01` |
| Scenarios.Week1Of2021 | scripts/merge_csv.py:25-35 | `2021-S01` reads as 4 January 2021 |
| Scenarios.YearBoundaryFields | scripts/prepare_dataset.py:31-33 | 1 January 2021 gets `annee` 2021, `mois` 1, `semaine` 53 |
| Scenarios.FirstWeekRow | scripts/prepare_dataset.py:30-33 | an in-scope row dated 4 January 2021 gets `annee` 2021, `mois` 1, `semaine` 1 |
| Scenarios.OtherRegionDropped | scripts/prepare_dataset.py:14-15 | a row from another region has no counterpart in stage B's output |

## Left out

- File system and I/O: globbing the input directory, reading and writing CSV, `mkdir` and the printed summaries (`scripts/merge_csv.py:6-9, 47, 97-101`, `scripts/prepare_dataset.py:5-11, 38-40`). Stage A takes the files as a sequence of (base name, table). Stage B takes `Option<Table>`, with `None` for a missing input file. Fatal exits are `Failure` results.
- The CSV file between the stages: stage B receives stage A's cells as they are, with `date_semaine` still a date. The type changes a CSV round trip causes are not modelled.
- pandas' free-text date parsing: it is the opaque `parse` parameter. Column-wide format inference, where the first value fixes the format for the rest, is not modelled; each value is parsed on its own.
- `ratio_hosp` (`scripts/prepare_dataset.py:35-36`): float division with infinite and NaN results on a zero or missing rate. Reals have no such values.
- MergeCsv.IsoWeekToDate: accepts only ASCII decimal digits in each part. Python's `int()` also accepts surrounding whitespace, a sign, underscores and non-ASCII digits.
- MergeCsv.IsoWeekToDate: uses Python's date range, years 1..9999. A pandas `Timestamp` only covers about 1677 to 2262, and dates outside that become `NaT` through the `except`.
- MergeCsv.EndsWithCsvIgnoringCase: folds only ASCII letters. No other character lower-cases onto `.`, `c`, `s` or `v`, so the result is the same.
- MergeCsv.YearText: covers integer, real, text and date cells. Other pandas dtypes are not modelled.
- MergeCsv.YearText: a string casts only when it is a non-empty run of ASCII decimal digits. `int()` also accepts surrounding whitespace, a sign, underscores and non-ASCII digits. How `astype("Int64")` treats strings also depends on the pandas version, and the model follows pandas 2.
- PrepareDataset.DeriveCalendarRow: writes `annee` and `mois` as integer cells. pandas' `.dt.year` and `.dt.month` (`scripts/prepare_dataset.py:31-32`) return float64 for the whole column once any kept row has `NaT`, so the written file then holds `2021.0`. Only `semaine` is cast to `Int64` (`scripts/prepare_dataset.py:33`). The model keeps the value and not this column-wide dtype.
- PrepareDataset.DeriveCalendar: the same column-wide float64 dtype of `annee` and `mois` when some row's date is `NaT` is not modelled. Each row gets integer cells whatever the other rows hold.
- Duplicate column names, which pandas allows, collapse into one key of a row map.
- Floating-point rates are reals. NaN is modelled only as the missing cell.
