# Hilton service level report ingest, modelled in Dafny

The system ingests weekly "Service Level Report" workbooks from a Hilton food-service site. A report is
dropped into a storage bucket. That triggers `run`, a storage-triggered cloud function in `main.py`,
which does the following:

- checks the object's name against `.*service level report.*xls[x]?$` (case-insensitive);
- reads the report date from the last date-like token of the name (`re.findall`, then `re.sub` of the
  separators, then `strptime(…, "%d%m%Y")`);
- reads the site from substrings of the name;
- downloads the workbook;
- copies it into the `<bucket>_output` bucket under a `%Y%m%d_%H:%M:%S_<name>` stamp;
- runs five loaders in a fixed order. Each loader:
  - reads one sheet's column range under fixed column names;
  - stamps `filename_date` and `filename_site` on every row;
  - for two of them, drops rows whose key cell is empty.
- To each loader's table, the run then:
  - adds the lineage columns `upload_utc_dt`, `filename` and `file_contents_md5`;
  - appends it to the warehouse table `hilton.<table>`;
  - exports it to the output bucket as `.csv` and as `.pk`.

`run_local` in `main_local.py` is the desktop twin. It works on a fixed sample name and only appends.

The model is a set of pure functions. The outside services are parameters of type `Services`:

- the download, the archive copy, the warehouse append, the storage write and the MD5 digest;
- each call either succeeds or raises.

A run is described by its `Trace`: how it ended (skipped, aborted, crashed with a fault, completed) and
the list of writes that took effect, in order.

Modules follow the program:

- `Text`, `Calendar` and `Wrappers` are shared vocabulary.
- `NameCheck` covers `is_correctFileName`.
- `Sites` covers `infer_site`.
- `DateToken` is the `findall` of the date pattern, with Python's backtracking order.
- `Strptime` is CPython's `_strptime` for `%d%m%Y`.
- `FileDate` covers `get_date`.
- `FileDateExamples` holds concrete names.
- `Buckets` covers `save_to_bucket_name` and `gen_full_bucket_path`.
- `Timestamps` is the `strftime` stamp.
- `Extract` holds the five loaders.
- `Lineage` holds the three lineage columns.
- `Pipeline` covers `run` and `run_local`.

Where the code and the written description of the system disagree, the model follows the code:

- A workbook that lacks the "Forecast Data" sheet is described as aborting with no table committed.
  In the code, the master data, service level and service group tables have already been appended
  and exported by then, and there is no rollback. `Pipeline.ForecastMissingKeepsEarlierTables`
  states this.
- `get_date` is described as accepting a year of two or more digits and failing only on a day, month
  and year that form no calendar day. As written, a token with a two-digit year such as `16.03.22` is
  read as 1 June 322, which is evidently not meant. A token for a triple that is no calendar day, such
  as `1.13.2022` (month 13), is read as another day instead of failing. See "## Findings".

`infer_site` lower-cases the name with `str.lower`. The model lower-cases ASCII letters only. This gives
the same answers: the needles `trug`, `heathwood`, `hw` and `bun` are ASCII, and the non-ASCII characters
whose lower case holds an ASCII letter produce only `i` or `k`, which no needle contains.

## Model

| member | source | states |
|---|---|---|
| Buckets.SaveToBucketName | main.py:45-46 | the output bucket's name starts with the input bucket's name and ends in `_output` |
| Buckets.SaveToBucketNameRoundTrip | main.py:45-46 | removing `_output` from an output bucket's name gives back the input bucket |
| Buckets.InputBucketOfRoundTrip | main.py:45-46 | every name ending in `_output` is the output bucket of exactly the bucket it strips to |
| Buckets.SaveToBucketNameInjective | main.py:45-46 | distinct input buckets never share an output bucket |
| Buckets.SaveToBucketNameKeepsSlashFree | main.py:45-46 | the output bucket's name holds a `/` only if the input bucket's does |
| Buckets.GenFullBucketPath | main.py:65-66 | a storage path starts with `gs://` and has a `/` right after the bucket |
| Buckets.SplitBucketPath | main.py:65-66 | a path split at its first `/` after `gs://` is rebuilt exactly by `gen_full_bucket_path`, and the bucket part holds no `/` |
| Buckets.GenFullBucketPathRoundTrip | main.py:65-66 | a path names its bucket and object back exactly, whatever the object name holds, when the bucket holds no `/` |
| Buckets.GenFullBucketPathAmbiguous | main.py:65-66 | without that condition, two different bucket/object pairs give the same path |
| NameCheck.IsCorrectFileNameMatchesRegex | main.py:48-63 | the check accepts a name exactly when `re.match` of `.*service level report.*xls[x]?$` with IGNORECASE succeeds: `.` stops at a newline, `$` also matches before a final newline, and letters compare as IGNORECASE folds them (ASCII capitals, and also `İ`, `ı`, `ſ` and the Kelvin sign, which match `i`, `i`, `s` and `k`) |
| NameCheck.PatternOnSingleLine | main.py:48-63 | a name without a newline is accepted exactly when its case-folded text contains `service level report` followed later by a final `xls` or `xlsx` |
| NameCheck.AcceptedWhenPhraseAndExtension | main.py:48-63 | a name without a newline whose case-folded text holds `service level report` and ends in `xls` or `xlsx` is accepted |
| NameCheck.AcceptedByParts | main.py:48-63 | a name made of newline-free parts, the phrase in any letter case, and a final `xls` or `xlsx` in any letter case is accepted |
| NameCheck.RejectedNameExamples | main.py:48-63 | a `.pdf` name and a name with the phrase misspelt are rejected |
| NameCheck.AcceptedUpperCaseName | main.py:48-63 | an upper-case name ending in `.XLS` is accepted |
| NameCheck.AcceptedNameWithoutDot | main.py:48-63 | the bare phrase followed by `xls`, with no dot, is accepted |
| NameCheck.FoldedLettersAccepted | main.py:48-63 | `ſervıce level report.xlsx`, spelt with a long s and a dotless i, is accepted, as IGNORECASE folds both letters |
| NameCheck.SampleNameAccepted | main_local.py:206 | the local runner's sample name passes the check |
| Sites.SiteName | main.py:96-106 | the stored site text is one of the four names the source writes |
| Sites.HeathwoodBranchSubsumed | main.py:99-102 | the `heathwood` branch is dead: deleting it changes no result, because every name containing `heathwood` contains `hw` |
| Sites.InferSite | main.py:96-106 | each site is returned exactly under its condition, with `trug` taking priority over `hw`, `hw` over `bun`, and Other returned only when none of the four substrings occurs |
| Sites.HeathwoodSampleSite | main_local.py:206-210 | the local runner's sample name gives Heathwood |
| Sites.TruganinaSampleSite | main_local.py:206 | the commented-out alternative sample name gives Truganina |
| Sites.BunburySampleSite | main.py:103-104 | a Bunbury report's name gives Bunbury |
| DateToken.MatchToken | main.py:121 | a token matched at a position spells the pattern there: 1-2 digits, an optional separator, 1-2 digits, an optional separator, then at least 2 digits |
| DateToken.MatchTokenIsFirst | main.py:121 | the token matched at a position is the first way to match in Python's backtracking order, and there is none exactly when the pattern cannot match there |
| DateToken.FindAllShaped | main.py:121 | every token `findall` returns has the pattern's shape: 1-2 digits, an optional separator, 1-2 digits, an optional separator, at least 2 digits |
| DateToken.FindAllSplitsAtBreak | main.py:121 | `findall` on a name cut just after a character that is neither a digit nor a separator is the tokens of the first part followed by those of the second |
| DateToken.FindAllWithoutDigits | main.py:121 | a text without digits has no tokens |
| DateToken.FindAllSkipsNonDigits | main.py:121 | a prefix without digits in front of a text adds no tokens |
| Strptime.FirstReading | main.py:123 | the reading chosen is a reading of the text's front by the `%d%m%Y` expression |
| Strptime.FirstReadingIsFirst | main.py:123 | that reading comes no later in backtracking order than any other reading, and one exists whenever any does |
| Strptime.FirstReadingUnique | main.py:123 | at most one reading of a text comes first in backtracking order |
| Strptime.FirstReadingIsTheFirst | main.py:123 | the reading chosen is the one that comes first in backtracking order |
| Strptime.Parse | main.py:123 | `strptime` keeps the first reading in backtracking order. A success is that reading, covering the whole text and naming a real calendar day. "does not match format" occurs exactly when no reading exists. "unconverted data remains" occurs exactly when the first reading stops short of the end. The out-of-range error occurs exactly when the first reading covers the text but names no calendar day |
| Strptime.ParseTakesFirstOfTwoReadings | main.py:123 | `1112022` can be read as 1 November 2022, but the two-digit day is tried first, so it gives 11 January 2022 |
| Strptime.ParseEightDigits | main.py:122-123 | on eight digits, the call succeeds exactly when `ddmmyyyy` names a real day, and then returns that day |
| Strptime.ParseSampleDay | main.py:123 | `16032022` gives 16 March 2022 |
| Strptime.ParseLeapDay | main.py:123 | `29022024` gives 29 February 2024 |
| Strptime.ParseLeapDayInCommonYear | main.py:123 | `29022023` fails: the day is out of range |
| Strptime.ParseThirtiethOfFebruary | main.py:123 | `30022022` fails: the day is out of range |
| Strptime.ParseMonthThirteen | main.py:123 | `13132022` fails with unconverted data |
| Strptime.ParseDayZero | main.py:123 | `00032022` fails to match the format |
| Strptime.ParseShortYear | main.py:123 | `160322` is read as 1 June 322 |
| Strptime.ParseDayOneMonthThirteen | main.py:123 | `1132022` is read as 11 March 2022 |
| Strptime.ParseSevenDigits | main.py:123 | `1632022` is read as 16 March 2022, with a two-digit day and a one-digit month |
| Strptime.ParseDayOneMonthTwelve | main.py:123 | `1122022` is read as 11 February 2022, with a two-digit day |
| Strptime.ParseSixDigitsLateMonth | main.py:123 | `151221` is read as 1 May 1221, with a one-digit day and a one-digit month |
| FileDate.StripSepsContents | main.py:122 | removing separators keeps exactly the characters other than `.`, `/` and `-` |
| FileDate.StripSepsAppend | main.py:122 | removing separators distributes over concatenation |
| FileDate.StripSepsOfToken | main.py:121-122 | a token stripped of its separators is its day, month and year digit groups, in order |
| FileDate.LastToken | main.py:121 | the token taken is absent exactly when `findall` finds none, and is otherwise the last one found |
| FileDate.GetDate | main.py:118-124 | as written: the call fails for lack of a token exactly when `findall` finds none. A success is a real calendar day: the first reading of the last token's digits, once the separators are removed, covering all of them. Conversely, the call succeeds whenever there is a token and that first reading covers all its digits and names a real day |
| FileDate.GetDateChecked | main.py:118-124 | corrected: the call fails for lack of a token exactly when `findall` finds none. On a name with a token, it succeeds exactly when the as-written reading succeeds with a year of at least 1000 and the token's separators fall on that reading's field boundaries, and it then gives the as-written date |
| FileDate.CheckedOnPlainToken | main.py:118-124 | on a last token without separators, the corrected reading succeeds exactly when the as-written one does with a year of at least 1000, and gives the same date |
| FileDate.CheckedReadsSeparatedGroups | main.py:121-123 | on a last token with both separators, a success of the corrected reading is exactly the day written by the token's own day, month and year groups |
| FileDate.SeparatedReadingIsWritten | main.py:121-123 | a whole reading of a token with both separators, whose field boundaries fall on the separators, is the date the token's groups write |
| FileDate.ReadingOfGroups | main.py:122-123 | a reading whose fields fall exactly on three digit groups reads each group's number |
| FileDate.CheckedAgreesWhereItSucceeds | main.py:118-124 | where the corrected reading succeeds, the reading as written gives the same day |
| FileDate.GetDateIgnoresEarlierTokens | main.py:121 | the date depends only on the last token: text in front that ends in a character other than a digit or separator changes nothing |
| FileDate.GetDateOfFullToken | main.py:121-123 | for a last token with a two-digit day, a two-digit month and a four-digit year, the as-written reading succeeds exactly when that day is real and returns it, and the corrected one also needs a year of at least 1000 |
| FileDateExamples.HeathwoodSampleDate | main_local.py:206-208 | the sample name `… - 16032022.xlsx` gives 16 March 2022 |
| FileDateExamples.TruganinaSampleDate | main_local.py:206 | the commented-out name `… -29.03.2022.xlsx` gives 29 March 2022 under both readings |
| FileDateExamples.ShortYearMisread | main.py:121-123 | as written, `… - 16.03.22.xlsx` is read as 1 June 322, and the corrected reading rejects it |
| FileDateExamples.MonthThirteenMisread | main.py:121-123 | as written, `… - 1.13.2022.xlsx` is read as 11 March 2022, and the corrected reading rejects it |
| FileDateExamples.DayOneMonthTwelveMisread | main.py:121-123 | as written, `… - 1.12.2022.xlsx`, a real day, is read as 11 February 2022, and the corrected reading rejects it |
| FileDateExamples.SeparatorFreeSevenDigits | main.py:121-123 | `… - 1632022.xlsx` is read as 16 March 2022 by both readings |
| FileDateExamples.SixDigitLateMonthKept | main.py:121-123 | `… - 151221.xlsx` is read as 1 May 1221 by both readings: the correction does not catch it |
| Timestamps.Pad | main.py:287 | a zero-padded field has exactly its width and only digits |
| Timestamps.PadVal | main.py:287 | reading the padded digits back gives the number when it fits the width |
| Timestamps.Stamp | main.py:287 | the stamp `%Y%m%d_%H:%M:%S` has 17 characters, with `_`, `:` and `:` at positions 8, 11 and 14 |
| Timestamps.FromStamp | main.py:287 | a stamp that reads back is exactly the stamp of the instant it reads as |
| Timestamps.StampRoundTrip | main.py:287 | a stamp reads back as the clock reading cut to the second |
| Timestamps.StampSameSecond | main.py:287 | two clock readings give the same stamp exactly when they fall in the same second |
| Timestamps.SampleStamp | main.py:287 | 16 March 2022 09:05:00.000123 is stamped `20220316_09:05:00` |
| Extract.Load | main.py:133-136 | in the model, a loader fails exactly when its sheet is missing. Its table has the loader's name and column names, and every row has the range's width and carries the filename's date and site. An unfiltered loader keeps every data row, with field `i` taken from column `first + i`. A filtered loader keeps only rows whose key is filled |
| Extract.SchemasMatchRanges | main.py:127-133 | the column names fill each loader's range exactly (D:G, A:W, A:F, A:V, A:Q), and the filters sit on `ITEM` and `MATERIAL_NUMBER` |
| Extract.KeepKeyed | main.py:170 | the filter keeps only rows that were there and have their key |
| Extract.KeepKeyedMembership | main.py:170 | a row is kept exactly when it was there and its key cell is filled |
| Extract.KeepKeyedAppend | main.py:170 | the filter keeps row order: filtering a concatenation filters each part in turn |
| Extract.KeepKeyedAllKeyed | main.py:219 | rows that all have their key pass unchanged |
| Extract.KeepKeyedNoneKeyed | main.py:219 | rows none of which has its key all go |
| Extract.LoadFiltersByKey | main.py:166-170 | a filtering loader returns exactly the range's rows that have their key, in order |
| Extract.LoadCondensedMasterdata | main.py:126-136 | `hilton_masterdata` reads columns D:G of "Master Data" into four fields, one row per data row. In the model it fails exactly when the sheet is missing |
| Extract.LoadServiceLevelData | main.py:138-171 | `hilton_servicelevel` holds exactly the A:W rows of "Service Level Data" whose `ITEM` is filled |
| Extract.LoadServicegroupData | main.py:173-185 | `hilton_servicegroup` reads columns A:F of "Service Group", one row per data row |
| Extract.LoadForecastData | main.py:187-220 | `hilton_forecast` holds exactly the A:V rows of "Forecast Data" whose `MATERIAL_NUMBER` is filled |
| Extract.LoadCustomerData | main.py:222-247 | `hilton_customer` reads columns A:Q of "Customer Master", one row per data row |
| Extract.ServiceLevelKeepsBareItemRow | main.py:170 | a service-level row with only its `ITEM` filled is kept |
| Lineage.Columns | main.py:296-298 | a written table has five more columns than its loader's names |
| Lineage.AddLineage | main.py:296-298 | setting the lineage columns keeps the table's name, columns and rows, and gives every row the run's lineage |
| Lineage.DropLineage | main.py:296-298 | removing the lineage keeps the table's name, columns and row count |
| Lineage.LineageRoundTrip | main.py:296-298 | adding the lineage loses nothing: dropping it gives the loader's table back |
| Lineage.LineageOfShared | main.py:296-298 | a table whose rows share one lineage is that lineage added to its own contents |
| Lineage.ColumnsOfAdded | main.py:296-298 | the written columns are the loader's names, then `filename_date`, `filename_site`, `upload_utc_dt`, `filename`, `file_contents_md5` |
| Pipeline.PresentPrefix | main.py:293-295 | the loaders before the first missing sheet all find their sheet |
| Pipeline.CommitTables | main.py:293-309 | the loop either completes or stops on a loader, append or export fault, never on a date or copy fault |
| Pipeline.Run | main.py:249-309 | a run is skipped exactly when the name check fails. It crashes on the date exactly when the name passes and the date does not read. It aborts exactly when the download block raises. In those cases and on a failed copy it writes nothing, and otherwise its first write is the archive copy |
| Pipeline.RunCases | main.py:262-295 | a run either stops before the loop having written nothing, or archives the file and then runs the loop |
| Pipeline.CommitTablesIsPrefix | main.py:293-309 | whatever fails, the loop's writes are a prefix of the failure-free loop's writes over the loaders that find their sheet |
| Pipeline.CommitTablesCompleted | main.py:293-309 | a loop that completes made exactly the failure-free loop's writes |
| Pipeline.CommitTablesWhenCallsSucceed | main.py:293-309 | with every call succeeding, the loop commits the loaders before the first missing sheet and stops there |
| Pipeline.CommitTablesCompletesIff | main.py:293-309 | with every call succeeding, the loop completes exactly when every sheet is there, and then makes three writes per loader |
| Pipeline.CommitTablesInOrder | main.py:293-304 | the loop appends to a prefix of the loaders' warehouse tables, in order |
| Pipeline.CommitTablesOrigins | main.py:296-298 | every write of the loop carries the run's lineage, and none is an archive copy |
| Pipeline.CommitTablesNaming | main.py:300-309 | every write of the loop is named after the table it holds |
| Pipeline.CommitAllNaming | main.py:300-309 | the same, for the failure-free loop |
| Pipeline.LoaderDestinations | main.py:292-300 | the five warehouse tables are `hilton.hilton_masterdata`, `…servicelevel`, `…servicegroup`, `…forecast`, `…customer`, in that order |
| Pipeline.RunAppendsInOrder | main.py:293-304 | whatever fails, a run appends to a prefix of the five warehouse tables in the fixed order, and to all five when it completes |
| Pipeline.RunSharesOrigin | main.py:291-298 | every table a run writes carries on every row the run's clock reading, the file's name and the digest of its bytes |
| Pipeline.RunArchivesOnce | main.py:287-288 | the archive copy is the first write of a run and the only one |
| Pipeline.ArchiveNameRoundTrip | main.py:287-288 | the archive goes to the output bucket, named with the run's stamp, an underscore and the file's name, and the stamp reads back as the clock reading to the second |
| Pipeline.RunNamesItsWrites | main.py:300-309 | every append goes to `hilton.<table>`, and every export goes to `<stamp>_<site>_<table>` in the output bucket as `.csv` or `.pk` |
| Pipeline.ExportBaseInOutputBucket | main.py:306-307 | an export path is a storage path in the output bucket, and it names that bucket and object back |
| Pipeline.RunStopsAtMissingSheet | main.py:293-309 | with every call succeeding, a run commits the tables before the first missing sheet and fails there; what it wrote stays written |
| Pipeline.RunCompletesIffAllSheets | main.py:293-309 | with every call succeeding, a run completes exactly when the workbook has all five sheets, and then makes sixteen writes |
| Pipeline.ForecastMissingKeepsEarlierTables | main.py:293-304 | without "Forecast Data", the master data, service level and service group tables are appended before the run fails on that sheet |
| Pipeline.AppendTables | main_local.py:221-232 | the local loop either completes or stops on a loader or append fault |
| Pipeline.RunLocal | main_local.py:206-232 | an unreadable date fails before the name check; the run is skipped exactly when the date reads and the name check fails; a skipped run writes nothing |
| Pipeline.AppendTablesMatchesCommitTables | main_local.py:221-232 | the local loop ends as the cloud loop does and makes its appends, when the exports succeed |
| Pipeline.RunLocalMatchesRun | main_local.py:213-232 | `run_local` appends what `run` appends, in the same order, and ends the same way, given the same file, clock and warehouse and successful exports |
| Pipeline.AppendTablesOnlyAppends | main_local.py:221-232 | `run_local` writes nothing but warehouse appends |
| Pipeline.AppendTablesInOrder | main_local.py:221-232 | the local loop appends to a prefix of the loaders' tables in order, and to all of them when it completes |
| Pipeline.AppendTablesStampsRows | main_local.py:221-232 | every appended row carries the source's date, site and lineage |
| Pipeline.AppendTablesCompletes | main_local.py:221-232 | with every append succeeding and every sheet there, the local loop completes |
| Pipeline.RunLocalCompletes | main_local.py:206-232 | on a well-named report whose date reads, `run_local` completes, appends to the five tables in order and stamps every row |
| Pipeline.SampleRunLocal | main_local.py:206-232 | on the sample report, every appended row is stamped 16 March 2022 and Heathwood |

## Left out

- Logging: `pretty_print_event`, `pretty_print_context` and the `print` calls only log, so they are not modelled.
- Cloud clients: the storage client, the download to `/tmp`, `copy_blob`, the warehouse client and its load
  job, and `to_csv` / `to_pickle` are services. Each call is a parameter that either succeeds or raises.
  What they do inside is not modelled.
- Download: the guarded download block is one call that can fail. Its failure returns early, as the `except` does.
- Load jobs: the warehouse load is modelled as finishing when it is issued. The job object is not awaited
  in the source, and its asynchrony is not modelled.
- Credentials: `get_bq_credentials` (main_local.py:184-192) only builds credentials from a key file.
- Unused values: `fileName_full` and `da_date_string` are computed and never used.
- Cell decoding: `dtype`, `parse_dates` and the pandas reading of cell values are left out. Cells are opaque
  values, empty or not, so type coercion errors inside `read_excel` are not modelled.
- MD5: the digest is a parameter function, not the MD5 algorithm.
- Clock: `now_utc` is the parameter `now`. Each module takes it once, at import.
- Timestamps.Stamp: years before 1000 are excluded (`ValidInstant`), because the C library's `%Y` does not
  pad them to four digits.
- Strptime.Parse: only the `%d%m%Y` format is modelled. `_strptime`'s other directives, its locale handling
  and its treatment of leading whitespace inside other formats are not.
- Pipeline.RunLocal: the workbook at the fixed local path is a parameter, not read from disk. The sample
  name is fixed in `SampleRunLocal`.
- FileDate.GetDateChecked: a token without separators is taken as `strptime` reads it whenever the year is
  1000 or more. A six-digit `ddmmyy` token with a month from 10 to 12 therefore still gives a wrong date, for
  example `151221` gives 1 May 1221 (`FileDateExamples.SixDigitLateMonthKept`). Without separators such a
  token cannot be told apart from a `dmyyyy` one such as `132022` (1 March 2022), which the source reads
  correctly. Only a plausible-year bound that the source gives no basis for would separate them.
- Pipeline.Run: it reads the date with the corrected `FileDate.GetDateChecked`, not the as-written
  `FileDate.GetDate`. The two agree wherever the corrected reading succeeds
  (`FileDate.CheckedAgreesWhereItSucceeds`). They also agree on every token without separators whose year
  reads as 1000 or more (`FileDate.CheckedOnPlainToken`). The modelled run crashes on the date in two cases
  where the source loads under a wrong date: a separator the reading contradicts (see "## Findings"), and a
  year below 1000.
- Pipeline.RunLocal: like `Run`, it uses the corrected date reading.
- Extract.Load: a column range reaching past the sheet's used columns reads as empty cells. `pandas.read_excel`
  instead raises a parser error in recent versions and only warns in older ones. A sheet with no used cells
  is also not treated specially: pandas returns an empty frame, and the filtered loaders then fail on the
  missing key column. Both depend on the pandas version.
- Extract.LoadCondensedMasterdata: as for `Extract.Load`, a missing sheet is the only read failure
  modelled. The same holds for the other four loaders.

## Findings

| source | as written | input that shows it | evidently intended | confidence | as-written member | corrected member |
|---|---|---|---|---|---|---|
| main.py:121-123 | separators are removed from the last date token and the rest is parsed with `%d%m%Y`. `%d` backs off to one digit when two leave too few digits for `%Y`, so a two-digit year is accepted | `Heathwood Service Level Report - 16.03.22.xlsx` gives 1 June 322 | for a token with separators, the day, month and year it writes (16 March 2022), or a failure; tokens without separators are discussed under "## Left out" | not executed | FileDateExamples.ShortYearMisread | FileDate.GetDateChecked |
| main.py:121-123 | a one-digit day followed by month `13` is regrouped by `strptime` after the separators are gone | `Heathwood Service Level Report - 1.13.2022.xlsx` gives 11 March 2022 | a failure, since month 13 does not exist | not executed | FileDateExamples.MonthThirteenMisread | FileDate.CheckedReadsSeparatedGroups |
| main.py:121-123 | a one-digit day followed by a two-digit month is regrouped in the same way, even when it names a real day | `Heathwood Service Level Report - 1.12.2022.xlsx` gives 11 February 2022 | 1 December 2022, or a failure | not executed | FileDateExamples.DayOneMonthTwelveMisread | FileDate.CheckedReadsSeparatedGroups |
