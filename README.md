# Incremental Survey123 → SQL Server load, modelled in Dafny

`incremental_survey123_to_sql` (in `survey123_to_sqlserver.py`) is a one-pass ETL step. It downloads every
submission of a Survey123 form and normalises the survey's date field to `YYYY-MM-DD`. It reads the
destination table's `MAX(date)` as a watermark and keeps the submissions dated strictly after the
watermark and strictly before today. It fans each kept submission's comma-separated multi-select
answer out into one record per selected option. It then inserts every record with a parameterised
`INSERT`, turning missing cells into `None`.

This project models that transform over plain values:

- `common.dfy`, module `Common`: `Option` (Python's `None`) and `Result` (a step that may raise).
- `pytext.dfy`, module `PyText`: the two Python string operations the script uses, `str.split(',')`
  (never empty, and `""` gives `[""]`) and `','.join`. It also has two helpers for stating properties.
  `CountChar` counts commas and `?` marks. `TextLess` is the character-wise order in which
  `FormatOrder` compares normalised dates as text.
- `dates.dfy`, module `Dates`: `datetime.strptime(s, '%Y-%m-%d')` and `strftime('%Y-%m-%d')`.
  Parsing follows CPython's `_strptime` patterns. `%Y` is four digits. `%m` is
  `1[0-2]|0[1-9]|[1-9]`. `%d` is `3[01]|[12]\d|0[1-9]|[1-9]| [1-9]`. The first alternative that
  matches wins. Text left after the day raises, and so do year 0 and a day past the end of its month.
  So `2021-3-5` is accepted, and the normalisation rewrites it to `2021-03-05`.
- `survey_load.dfy`, module `SurveyLoad`: submissions, the watermark, the date filter, the fan-out
  loop (`FanOut`, a method checked against `FanOutSpec`), the insert statement, the null scrub and
  the insert loop (`InsertAll`). It also has the whole run, as a function (`Load`) and as a method
  calling the two loops (`IncrementalLoad`).

Inputs that the script obtains from outside are parameters. These are the downloaded rows, the
destination's `MAX(date)` (an `Option<string>`: `None` when the table is empty) and today's date.
Instead of executing the inserts, the run returns the list of `(statement, params)` pairs it would
pass to `cursor.execute`.

Decisions where the script is silent or broken:

- **Empty destination.** When the destination is empty, `MAX(date)` is NULL and `strptime(None, …)`
  raises. The model returns `Failure(EmptyDestination)` and inserts nothing. It does not load
  everything.
- **How `:56` compares dates.** Line 56 compares a datetime column with two strings. pandas reads
  each string as a timestamp, so the comparison is between dates. `Load` therefore reads the
  formatted watermark and today back with `ParseDate`.
- **Time of day.** Line 37 drops the time of day. A submission made at any time on the
  watermark's day is therefore not loaded.
- **Missing dates.** A missing survey date (NaT) fails both comparisons.
- **Missing multi-select answer.** Line 63 splits `str()` of the answer. A missing answer shows as
  `nan` (float NaN), `None`, `NaT` or `<NA>`, so it yields one record whose option is that text. The
  text is then inserted like any other option. This is modelled as written
  (`MissingSelectionShowsMarker`).
- **Cell values.** A cell is `Null(shown)` for a missing value or `Value(shown)` for any other
  value. In both cases `shown` is the text `str()` gives for it.
- **Null scrub.** A missing cell is sent as `None` (SQL NULL), as line 84 does, and the model follows
  the code.

## Model

| member | source | states |
|---|---|---|
| `PyText.Split` | survey123_to_sqlserver.py:63 | `split(',')` never returns an empty list, and no part contains the separator |
| `PyText.SplitCount` | survey123_to_sqlserver.py:63 | a split has exactly one more part than the text has commas |
| `PyText.JoinSplit` | survey123_to_sqlserver.py:63 | joining the parts of a split with the separator gives the original text back |
| `PyText.SplitJoin` | survey123_to_sqlserver.py:76 | splitting a join of comma-free parts (at least one) gives the parts back in order |
| `PyText.Join` | survey123_to_sqlserver.py:76-77 | `','.join` of no parts is empty, and the first part begins the result |
| `Dates.MonthTokenLength` | survey123_to_sqlserver.py:48 | the `%m` token that strptime takes is one or two digits whose value is a month, 1 to 12 |
| `Dates.DayTokenLength` | survey123_to_sqlserver.py:48 | the `%d` token that strptime takes is at most two characters and never runs past the text |
| `Dates.DayValue` | survey123_to_sqlserver.py:48 | the `%d` token (a blank-padded form included) has a value from 1 to 31 |
| `Dates.ParseDate` | survey123_to_sqlserver.py:48 | every date strptime accepts is a real calendar date in years 1 to 9999 |
| `Dates.FormatDate` | survey123_to_sqlserver.py:49 | strftime gives ten characters: four digits, `-`, two digits, `-`, two digits |
| `Dates.ParseFormat` | survey123_to_sqlserver.py:48-49 | parsing the text that strftime wrote gives the same date back |
| `Dates.FormatParse` | survey123_to_sqlserver.py:48-49 | reformatting a parsed watermark leaves it unchanged exactly when it was already fixed-width `YYYY-MM-DD` |
| `Dates.UnpaddedDateParses` | survey123_to_sqlserver.py:48 | strptime accepts the unpadded `2021-3-5` as 5 March 2021 |
| `Dates.UnpaddedDateIsPadded` | survey123_to_sqlserver.py:48-49 | `2021-3-5` is accepted and normalised to `2021-03-05` |
| `Dates.MonthDayOrder` | survey123_to_sqlserver.py:56 | the zero-padded `-MM-DD` tails compare as text exactly as month and then day compare as numbers |
| `Dates.FormatOrder` | survey123_to_sqlserver.py:56 | normalised dates compare as text exactly as they compare as dates, in both directions |
| `SurveyLoad.ResolveWatermark` | survey123_to_sqlserver.py:47-49 | an empty destination is an error and an unparsable maximum is an error; otherwise the watermark is canonical text for the same date, equal to the input exactly when the input was canonical |
| `SurveyLoad.WatermarkAsWritten` | survey123_to_sqlserver.py:49 | as written, the step never yields a watermark; with a readable maximum it fails with NameError `min_date` |
| `SurveyLoad.MinDateNameError` | survey123_to_sqlserver.py:48-49 | for `2021-03-04` the step as written raises NameError, while the intended step yields `2021-03-04` |
| `SurveyLoad.Normalise` | survey123_to_sqlserver.py:37 | formatting a timestamp with `'%Y-%m-%d'` and reading the text back gives exactly its calendar date, whatever its time of day |
| `SurveyLoad.SurveyDate` | survey123_to_sqlserver.py:37 | after the format-and-reparse step a missing date stays missing, and a present timestamp becomes its own calendar date |
| `SurveyLoad.InWindow` | survey123_to_sqlserver.py:56 | a row passes only if it has a date, and only if the watermark is strictly before today |
| `SurveyLoad.Filter` | survey123_to_sqlserver.py:56 | every kept row has a date strictly after the watermark and strictly before today; a row is kept if and only if it is in the input and in that window; the filter never adds rows |
| `SurveyLoad.BoundaryDaysDropped` | survey123_to_sqlserver.py:37 | a submission made on the watermark's day or on today's day, at any time, is not kept |
| `SurveyLoad.FilterConcat` | survey123_to_sqlserver.py:56 | the filter keeps source order: filtering a concatenation gives the concatenation of the filtered parts |
| `SurveyLoad.FilterIdempotent` | survey123_to_sqlserver.py:56 | filtering twice is the same as filtering once |
| `SurveyLoad.Selection` | survey123_to_sqlserver.py:63 | the options of an answer are at least one, and none contains a comma |
| `SurveyLoad.RowRecords` | survey123_to_sqlserver.py:64-70 | a kept row contributes one record per option, so always at least one |
| `SurveyLoad.TokenTotal` | survey123_to_sqlserver.py:62-64 | every row contributes at least one option, so the total is at least the number of rows |
| `SurveyLoad.FanOutSpec` | survey123_to_sqlserver.py:62-73 | the reshaped frame has as many records as there are selected options over all kept rows |
| `SurveyLoad.FanOut` | survey123_to_sqlserver.py:62-73 | the nested append loop builds exactly the reshaped frame `FanOutSpec` |
| `SurveyLoad.FanOutConcat` | survey123_to_sqlserver.py:62-73 | the fan-out of a concatenation is the concatenation of the fan-outs |
| `SurveyLoad.FanOutBlock` | survey123_to_sqlserver.py:62-73 | in the reshaped frame, the records of one row sit between those of the rows before it and those of the rows after it |
| `SurveyLoad.FanOutAt` | survey123_to_sqlserver.py:64-70 | the record at offset j of row k's block copies that row's `col1`, `col2` and `col3` unchanged and holds its j-th option. Rows stay in source order, and options stay in their order within a row |
| `SurveyLoad.ActivitiesRoundTrip` | survey123_to_sqlserver.py:63-70 | a row yields one record per comma-separated option (commas + 1), and joining the records' options with `,` gives the answer back exactly |
| `SurveyLoad.MissingSelectionShowsMarker` | survey123_to_sqlserver.py:63 | a missing answer (shown as `nan`, `None`, `NaT` or `<NA>`) yields exactly one record, whose option is that text |
| `SurveyLoad.ThreeActivities` | survey123_to_sqlserver.py:63-70 | the answer `Inspection,Feeding,Treatment` yields three records that differ only in the option, in that order |
| `SurveyLoad.NewFrameAsWritten` | survey123_to_sqlserver.py:60 | as written, building the frame fails with NameError `columns` |
| `SurveyLoad.Placeholders` | survey123_to_sqlserver.py:77 | the placeholder list holds exactly one `?` per column |
| `SurveyLoad.InsertStatement` | survey123_to_sqlserver.py:78 | the statement begins `INSERT INTO` and the table name, and ends with the closing parenthesis of the value list |
| `SurveyLoad.PlaceholderCount` | survey123_to_sqlserver.py:76-78 | when the names contain no `?`, the statement holds exactly one `?` per column |
| `SurveyLoad.InsertListsRoundTrip` | survey123_to_sqlserver.py:76-77 | the column list splits back into the columns in order, and the placeholder list splits into one `?` per column |
| `SurveyLoad.NewDataStatement` | survey123_to_sqlserver.py:59-77 | the statement names `date_col,attribute_col,numerical_col,activity_col` in frame order, with `?,?,?,?` |
| `SurveyLoad.Cells` | survey123_to_sqlserver.py:85 | a record gives one value per frame column |
| `SurveyLoad.Scrub` | survey123_to_sqlserver.py:84-85 | one parameter per cell; a parameter is `None` exactly when its cell is missing; every other cell is passed unchanged |
| `SurveyLoad.RestoreScrub` | survey123_to_sqlserver.py:84-85 | scrubbing loses only the kind of missing marker: reading NULL back as `None` recovers every present cell unchanged, and every missing cell as `None` |
| `SurveyLoad.Inserts` | survey123_to_sqlserver.py:81-87 | one execution per record, each with one parameter per column |
| `SurveyLoad.InsertAll` | survey123_to_sqlserver.py:81-87 | the loop executes, in record order, the one prepared statement with that record's scrubbed values |
| `SurveyLoad.Load` | survey123_to_sqlserver.py:37-87 | an empty destination stops the run; with a maximum present, the run succeeds exactly when the maximum parses |
| `SurveyLoad.LoadSucceeds` | survey123_to_sqlserver.py:47-87 | with a readable watermark, the run inserts exactly the fan-out of the submissions strictly between the watermark and today, one insert per selected option |
| `SurveyLoad.IncrementalLoad` | survey123_to_sqlserver.py:13-91 | the script's steps, run in order through the two loops, give exactly `Load` |

## Left out

- ArcGIS login, the `SurveyManager` lookup and `download('DF')` (lines 28-34) are network I/O
  through a foreign library. The downloaded rows are a parameter.
- The pyodbc connection, `execute` of the `MAX` query, `fetchone`, `commit` and `close` (lines 40-47,
  87, 90-91) are database I/O. `MAX(date)` is a parameter, and the inserts are returned, not executed.
  The commit-once / abort-on-error transaction behaviour is therefore not modelled.
- `dt.today()` (line 52) reads the clock. Today's date is a parameter, and `requires ValidDate(today)`
  says that it is a real date.
- pandas internals are not modelled. This covers the dtype of the date column, the dtype changes
  that `DataFrame.append` can make (integers becoming floats, for example), its quadratic cost, and
  its removal in pandas 2.0. A cell is modelled only by whether it is missing and by its `str()` text. Float NaN, `None`, `NaT` and `<NA>` are all missing (`Null`).
- The table and column names are pasted into the SQL text unescaped (lines 44 and 78). SQL parsing
  and injection are not modelled. `PlaceholderCount` assumes the names contain no `?`.
- The file mixes tabs and spaces in its indentation (lines 41, 66-73, 75, 90-92), which Python
  rejects before running anything. The file also has no import statements. The model follows the
  indentation the code evidently means and assumes those names come from the environment.
- The model takes `SurveyDate` (the field named by `survey_date_field`) and `col1` as different
  columns. If they were the same column, line 37 would also normalise `col1`.
- `Dates.FormatDate` always pads the year to four digits. On some platforms Python's `strftime`
  leaves years below 1000 unpadded.
- `Dates.ParseDate` accepts only ASCII digits, but CPython's `\d` also matches other Unicode
  decimal digits.
- What pyodbc returns for `MAX(date)` depends on the driver. With a modern ODBC driver a SQL `DATE`
  column comes back as a date object, which `strptime` rejects. The model takes the text case,
  which is what line 48 needs: the legacy `{SQL Server}` driver, or a character column.
- `to_datetime` on line 37 is modelled by `ParseDate`, which agrees with it on the fixed-width
  `YYYY-MM-DD` text that `strftime` writes. pandas timestamps span only the years 1677 to 2262; the
  model allows any real date (`CalendarDate`).
- "Re-running the watermark query after the inserts yields the maximum inserted date" needs the
  destination's state, which is not modelled.

## Findings

| source | as written | input that shows it | evidently intended | confidence | as-written member | corrected member |
|---|---|---|---|---|---|---|
| survey123_to_sqlserver.py:49 | formats `min_date`, a name bound nowhere in the file, so the run raises NameError before filtering | destination `MAX(date)` = `'2021-03-04'` | format `min_survey_date`, parsed on the line before | medium, not executed (the file imports nothing, so it depends on names from its environment) | `SurveyLoad.WatermarkAsWritten`, `SurveyLoad.MinDateNameError` | `SurveyLoad.ResolveWatermark` |
| survey123_to_sqlserver.py:60 | `pd.DataFrame(columns=columns)`: `columns` is bound nowhere, so the run raises NameError before the fan-out | any run that reaches line 60 | `columns=new_columns`, the list defined on line 59 | medium, not executed (same reason) | `SurveyLoad.NewFrameAsWritten` | `SurveyLoad.NewDataStatement` |
