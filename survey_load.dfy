/** The transform at the heart of `incremental_survey123_to_sql`: normalise the
    survey dates, keep the submissions between the destination's watermark and
    today, fan each multi-select answer out into one record per selected option,
    and turn every record into one parameterised `INSERT`.

    The downloaded frame, the watermark read from the destination and today's
    date are parameters; the inserts are returned as the list of
    (statement, parameters) pairs the script hands to `cursor.execute`. */
module SurveyLoad {
  import opened Common
  import opened PyText
  import opened Dates

  /** A pandas cell, with the text Python's `str()` shows for it. `Null` is a
      missing value, shown as `nan` (float NaN), `None`, `NaT` or `<NA>`;
      `Value` is any other value. */
  datatype Cell = Null(shown: string) | Value(shown: string)

  /** A date that a pandas timestamp can carry: a real calendar date. */
  type CalendarDate = d: Date | ValidDate(d) witness Date(1, 1, 1)

  /** A time of day, in whole seconds after midnight. */
  type SecondOfDay = s: nat | s < 86400

  /** A value of the survey's date field: a date and a time of day. */
  datatype Timestamp = Timestamp(date: CalendarDate, secondOfDay: SecondOfDay)

  /** One downloaded submission: the survey's date field and the four columns
      the transform reads. */
  datatype SurveyRow = SurveyRow(
    submitted: Option<Timestamp>,
    col1: Cell,
    col2: Cell,
    col3: Cell,
    selectMultiple: Cell)

  /** One row of the reshaped frame `new_data_df`. */
  datatype OutputRow = OutputRow(dateCol: Cell, attributeCol: Cell, numericalCol: Cell, activityCol: string)

  /** One `cursor.execute(statement, params)` call; `None` is sent as SQL NULL. */
  datatype Execution = Execution(statement: string, params: seq<Option<string>>)

  /** Why a run stops before inserting anything. */
  datatype LoadError =
    | EmptyDestination            // MAX(date) is NULL: strptime is handed None
    | BadWatermark(reason: DateError)
    | UndefinedName(name: string) // a NameError

  /** Python's name lookup: a name that is not bound raises NameError. */
  function LookupName<T>(bound: map<string, T>, name: string): Result<T, LoadError>
  {
    if name in bound then Success(bound[name]) else Failure(UndefinedName(name))
  }

  // ---------------------------------------------------------------------------
  // Watermark and date window

  /** The watermark step: parse `MAX(date)` from the destination with
      `'%Y-%m-%d'` and format it back, giving `min_survey_date`. An empty
      destination has no maximum and stops the run. */
  function ResolveWatermark(maxSqlDate: Option<string>): (r: Result<string, LoadError>)
    ensures maxSqlDate.None? ==> r == Failure(EmptyDestination)
    ensures maxSqlDate.Some? && ParseDate(maxSqlDate.value).Failure? ==>
      r == Failure(BadWatermark(ParseDate(maxSqlDate.value).error))
    ensures maxSqlDate.Some? && ParseDate(maxSqlDate.value).Success? ==>
      r.Success? && IsCanonicalText(r.value) && ParseDate(r.value) == ParseDate(maxSqlDate.value)
      && (r.value == maxSqlDate.value <==> IsCanonicalText(maxSqlDate.value))
  {
    match maxSqlDate
    case None => Failure(EmptyDestination)
    case Some(text) =>
      match ParseDate(text)
      case Failure(e) => Failure(BadWatermark(e))
      case Success(d) =>
        ParseFormat(d);
        FormatParse(text);
        Success(FormatDate(d))
  }

  /** The watermark step as written: the second line formats `min_date`, a name
      bound nowhere; the only date bound at that point is `min_survey_date`.
      The scope below binds that name to the formatted date, which stands in
      for the parsed datetime: the lookup of `min_date` fails whatever the
      value. */
  function WatermarkAsWritten(maxSqlDate: Option<string>): (r: Result<string, LoadError>)
    ensures r.Failure?
    ensures maxSqlDate.Some? && ParseDate(maxSqlDate.value).Success? ==> r == Failure(UndefinedName("min_date"))
  {
    match maxSqlDate
    case None => Failure(EmptyDestination)
    case Some(text) =>
      match ParseDate(text)
      case Failure(e) => Failure(BadWatermark(e))
      case Success(d) =>
        LookupName(map["min_survey_date" := FormatDate(d)], "min_date")
  }

  /** A destination holding 2021-03-04 stops the run as written, where the
      intended step yields the watermark `2021-03-04`. */
  lemma MinDateNameError()
    ensures WatermarkAsWritten(Some("2021-03-04")) == Failure(UndefinedName("min_date"))
    ensures ResolveWatermark(Some("2021-03-04")) == Success("2021-03-04")
  {
    WatermarkExample();
  }

  /** 4 March 2021 is written `2021-03-04` and read back from that text. */
  lemma WatermarkExample()
    ensures FormatDate(Date(2021, 3, 4)) == "2021-03-04"
    ensures ParseDate("2021-03-04") == Success(Date(2021, 3, 4))
  {
    var d := Date(2021, 3, 4);
    Pad2(3);
    Pad2(4);
    PadYear2021();
    assert FormatDate(d) == "2021-03-04";
    ParseFormat(d);
  }

  /** Line 37 on one timestamp: `strftime('%Y-%m-%d')` writes only the calendar
      date, and `to_datetime` reads that text back at midnight. The round trip
      keeps the date and loses the time of day. */
  function Normalise(ts: Timestamp): (d: Date)
    ensures d == ts.date
  {
    ParseFormat(ts.date);
    ParseDate(FormatDate(ts.date)).value
  }

  /** The survey date after line 37's normalisation; NaT stays missing. */
  function SurveyDate(row: SurveyRow): (d: Option<Date>)
    ensures d.Some? <==> row.submitted.Some?
    ensures d.Some? ==> d.value == row.submitted.value.date
  {
    match row.submitted
    case None => None
    case Some(ts) => Some(Normalise(ts))
  }

  /** The filter's condition: dated strictly after the watermark and strictly
      before today. A missing date compares false and fails it. */
  predicate InWindow(row: SurveyRow, watermark: Date, today: Date)
    ensures InWindow(row, watermark, today) ==> row.submitted.Some? && Before(watermark, today)
  {
    SurveyDate(row).Some? && Before(watermark, SurveyDate(row).value) && Before(SurveyDate(row).value, today)
  }

  /** The boolean-mask filter on the survey frame. */
  function Filter(rows: seq<SurveyRow>, watermark: Date, today: Date): (kept: seq<SurveyRow>)
    ensures |kept| <= |rows|
    ensures forall i :: 0 <= i < |kept| ==>
      kept[i].submitted.Some?
      && Before(watermark, kept[i].submitted.value.date)
      && Before(kept[i].submitted.value.date, today)
    ensures forall x :: x in kept <==> x in rows && InWindow(x, watermark, today)
  {
    if rows == [] then []
    else (if InWindow(rows[0], watermark, today) then [rows[0]] else []) + Filter(rows[1..], watermark, today)
  }

  /** A submission made on the watermark's day or on today's, at any time of
      day, is not loaded. */
  lemma BoundaryDaysDropped(rows: seq<SurveyRow>, watermark: Date, today: Date, row: SurveyRow)
    requires SurveyDate(row) == Some(watermark) || SurveyDate(row) == Some(today)
    ensures row !in Filter(rows, watermark, today)
  {
  }

  /** Filtering keeps source order: the filter of a concatenation is the
      concatenation of the filters. */
  lemma {:induction false} FilterConcat(a: seq<SurveyRow>, b: seq<SurveyRow>, watermark: Date, today: Date)
    ensures Filter(a + b, watermark, today) == Filter(a, watermark, today) + Filter(b, watermark, today)
  {
    if a != [] {
      assert (a + b)[0] == a[0] && (a + b)[1..] == a[1..] + b;
      FilterConcat(a[1..], b, watermark, today);
    } else {
      assert a + b == b;
    }
  }

  /** Filtering twice is filtering once. */
  lemma {:induction false} FilterIdempotent(rows: seq<SurveyRow>, watermark: Date, today: Date)
    ensures Filter(Filter(rows, watermark, today), watermark, today) == Filter(rows, watermark, today)
  {
    if rows != [] {
      var head := if InWindow(rows[0], watermark, today) then [rows[0]] else [];
      var rest := Filter(rows[1..], watermark, today);
      FilterConcat(head, rest, watermark, today);
      FilterIdempotent(rows[1..], watermark, today);
      if head != [] {
        assert head[1..] == [];
      }
    }
  }

  // ---------------------------------------------------------------------------
  // Multi-select fan-out

  /** The columns of the reshaped frame, in order. */
  const NewColumns: seq<string> := ["date_col", "attribute_col", "numerical_col", "activity_col"]

  /** `str(row.select_multiple_col).split(',')`. */
  function Selection(row: SurveyRow): (options: seq<string>)
    ensures |options| >= 1
    ensures forall i :: 0 <= i < |options| ==> ',' !in options[i]
  {
    Split(row.selectMultiple.shown, ',')
  }

  /** The records one kept submission contributes, one per selected option. */
  function RowRecords(row: SurveyRow): (records: seq<OutputRow>)
    ensures |records| == |Selection(row)| >= 1
  {
    var selection := Selection(row);
    seq(|selection|, i requires 0 <= i < |selection| => OutputRow(row.col1, row.col2, row.col3, selection[i]))
  }

  /** The number of selected options over all rows. */
  function TokenTotal(rows: seq<SurveyRow>): (n: nat)
    ensures n >= |rows|
  {
    if rows == [] then 0
    else TokenTotal(rows[..|rows| - 1]) + |Selection(rows[|rows| - 1])|
  }

  /** The reshaped frame: the records of each kept row, row after row. */
  function FanOutSpec(rows: seq<SurveyRow>): (out: seq<OutputRow>)
    ensures |out| == TokenTotal(rows)
  {
    if rows == [] then []
    else FanOutSpec(rows[..|rows| - 1]) + RowRecords(rows[|rows| - 1])
  }

  /** The nested loop that grows `new_data_df` one record at a time. */
  method FanOut(kept: seq<SurveyRow>) returns (out: seq<OutputRow>)
    ensures out == FanOutSpec(kept)
  {
    out := [];
    for k := 0 to |kept|
      invariant out == FanOutSpec(kept[..k])
    {
      var row := kept[k];
      var selection := Split(row.selectMultiple.shown, ',');
      for i := 0 to |selection|
        invariant out == FanOutSpec(kept[..k]) + RowRecords(row)[..i]
      {
        var data := OutputRow(row.col1, row.col2, row.col3, selection[i]);
        assert RowRecords(row)[..i + 1] == RowRecords(row)[..i] + [data];
        out := out + [data];
      }
      assert RowRecords(row)[..|selection|] == RowRecords(row);
      assert kept[..k + 1][..k] == kept[..k];
    }
    assert kept[..|kept|] == kept;
  }

  lemma {:induction false} FanOutConcat(a: seq<SurveyRow>, b: seq<SurveyRow>)
    ensures FanOutSpec(a + b) == FanOutSpec(a) + FanOutSpec(b)
  {
    if b == [] {
      assert a + b == a;
    } else {
      var init, last := b[..|b| - 1], b[|b| - 1];
      assert b == init + [last];
      assert a + b == (a + init) + [last];
      FanOutSnoc(init, last);
      calc {
        FanOutSpec((a + init) + [last]);
        { FanOutSnoc(a + init, last); }
        FanOutSpec(a + init) + RowRecords(last);
        { FanOutConcat(a, init); }
        (FanOutSpec(a) + FanOutSpec(init)) + RowRecords(last);
        FanOutSpec(a) + (FanOutSpec(init) + RowRecords(last));
      }
    }
  }

  /** Appending a row appends its records. */
  lemma FanOutSnoc(rows: seq<SurveyRow>, row: SurveyRow)
    ensures FanOutSpec(rows + [row]) == FanOutSpec(rows) + RowRecords(row)
  {
    var r := rows + [row];
    assert r[..|r| - 1] == rows && r[|r| - 1] == row;
  }

  /** The records of one row sit, as a block, between those of the rows
      before it and those of the rows after it. */
  lemma FanOutBlock(pre: seq<SurveyRow>, row: SurveyRow, post: seq<SurveyRow>)
    ensures FanOutSpec(pre + [row] + post) == FanOutSpec(pre) + RowRecords(row) + FanOutSpec(post)
  {
    var single := [row];
    assert single[..0] == [] && single[0] == row;
    assert FanOutSpec(single) == RowRecords(row) by {
      assert FanOutSpec(single) == FanOutSpec(single[..0]) + RowRecords(single[0]);
    }
    assert pre + single + post == pre + (single + post);
    calc {
      FanOutSpec(pre + (single + post));
      { FanOutConcat(pre, single + post); }
      FanOutSpec(pre) + FanOutSpec(single + post);
      { FanOutConcat(single, post); }
      FanOutSpec(pre) + (RowRecords(row) + FanOutSpec(post));
    }
  }

  /** The record at offset `j` within the block of row `k` carries that row's
      three columns unchanged and its `j`-th selected option: rows stay in
      source order and options in their order within a row. */
  lemma FanOutAt(rows: seq<SurveyRow>, k: nat, j: nat)
    requires k < |rows| && j < |Selection(rows[k])|
    ensures TokenTotal(rows[..k]) + j < |FanOutSpec(rows)|
    ensures FanOutSpec(rows)[TokenTotal(rows[..k]) + j]
      == OutputRow(rows[k].col1, rows[k].col2, rows[k].col3, Selection(rows[k])[j])
  {
    var pre, post := rows[..k], rows[k + 1..];
    assert rows == pre + [rows[k]] + post;
    FanOutBlock(pre, rows[k], post);
    var n := |FanOutSpec(pre)|;
    assert n == TokenTotal(pre);
    var block := RowRecords(rows[k]);
    assert FanOutSpec(rows)[n + j] == block[j];
  }

  /** The option column of the records of one row. */
  function Activities(records: seq<OutputRow>): seq<string>
  {
    seq(|records|, i requires 0 <= i < |records| => records[i].activityCol)
  }

  /** A row contributes as many records as its answer has comma-separated
      options (at least one), and joining their options with `,` gives the
      answer back. */
  lemma ActivitiesRoundTrip(row: SurveyRow)
    ensures |RowRecords(row)| == CountChar(row.selectMultiple.shown, ',') + 1
    ensures Join(Activities(RowRecords(row)), ',') == row.selectMultiple.shown
  {
    assert Activities(RowRecords(row)) == Selection(row);
    SplitCount(row.selectMultiple.shown, ',');
    JoinSplit(row.selectMultiple.shown, ',');
  }

  /** A missing multi-select answer is turned into the text `str()` shows for
      it (`nan`, `None`, `NaT` or `<NA>`) and yields one record whose option is
      that text. */
  lemma MissingSelectionShowsMarker(row: SurveyRow)
    requires row.selectMultiple.Null?
    requires row.selectMultiple.shown in {"nan", "None", "NaT", "<NA>"}
    ensures RowRecords(row) == [OutputRow(row.col1, row.col2, row.col3, row.selectMultiple.shown)]
  {
    SplitNoSeparator(row.selectMultiple.shown, ',');
  }

  /** Three selected options give three records that differ only in the option.
      The answer is written as a concatenation around its commas, which keeps
      the split's unfolding cheap for the verifier. */
  lemma ThreeActivities(row: SurveyRow)
    requires row.selectMultiple == Value("Inspection" + "," + "Feeding" + "," + "Treatment")
    ensures RowRecords(row) == [
      OutputRow(row.col1, row.col2, row.col3, "Inspection"),
      OutputRow(row.col1, row.col2, row.col3, "Feeding"),
      OutputRow(row.col1, row.col2, row.col3, "Treatment")]
  {
    var parts := ["Inspection", "Feeding", "Treatment"];
    assert parts[1..] == ["Feeding", "Treatment"] && parts[1..][1..] == ["Treatment"];
    assert Join(parts[1..], ',') == "Feeding" + "," + "Treatment";
    assert Join(parts, ',') == "Inspection" + "," + "Feeding" + "," + "Treatment";
    SplitJoin(parts, ',');
  }

  /** The frame as written is built with `columns=columns`, a name bound
      nowhere; the list the line before defines is `new_columns`. */
  function NewFrameAsWritten(): (r: Result<seq<string>, LoadError>)
    ensures r == Failure(UndefinedName("columns"))
  {
    LookupName(map["new_columns" := NewColumns], "columns")
  }

  // ---------------------------------------------------------------------------
  // Insert statements

  /** `','.join(['?' for _ in columns])`: `n` question marks. */
  function Placeholders(n: nat): (marks: string)
    ensures CountChar(marks, '?') == n
  {
    JoinRepeatCount('?', n, ',');
    Join(Repeat('?', n), ',')
  }

  /** `INSERT INTO t (c1,...,cn) VALUES (?,...,?)`; the table and column names
      are pasted in unescaped. */
  function InsertStatement(table: string, columns: seq<string>): (statement: string)
    ensures "INSERT INTO " + table <= statement
    ensures statement[|statement| - 1] == ')'
  {
    "INSERT INTO " + table + " (" + Join(columns, ',') + ") VALUES (" + Placeholders(|columns|) + ")"
  }

  /** When neither the table nor a column name contains `?`, the statement
      holds exactly one `?` placeholder per column. */
  lemma PlaceholderCount(table: string, columns: seq<string>)
    requires '?' !in table
    requires forall i :: 0 <= i < |columns| ==> '?' !in columns[i]
    ensures CountChar(InsertStatement(table, columns), '?') == |columns|
  {
    var head, cols, middle, marks, close :=
      "INSERT INTO " + table + " (", Join(columns, ','), ") VALUES (", Placeholders(|columns|), ")";
    assert '?' !in "INSERT INTO " && '?' !in " (";
    assert '?' !in head;
    assert '?' !in middle && '?' !in close;
    JoinAvoids(columns, ',', '?');
    assert InsertStatement(table, columns) == (((head + cols) + middle) + marks) + close;
    CountFiveParts(head, cols, middle, marks, close, '?');
  }

  /** Counting a character over five concatenated pieces adds up the pieces. */
  lemma CountFiveParts(a: string, b: string, c: string, d: string, e: string, ch: char)
    ensures CountChar((((a + b) + c) + d) + e, ch)
      == CountChar(a, ch) + CountChar(b, ch) + CountChar(c, ch) + CountChar(d, ch) + CountChar(e, ch)
  {
    CountCharConcat(a, b, ch);
    CountCharConcat(a + b, c, ch);
    CountCharConcat((a + b) + c, d, ch);
    CountCharConcat(((a + b) + c) + d, e, ch);
  }

  /** The column list splits back on `,` into the columns, in order, and the
      placeholder list into one `?` per column. */
  lemma InsertListsRoundTrip(columns: seq<string>)
    requires |columns| >= 1
    requires forall i :: 0 <= i < |columns| ==> ',' !in columns[i]
    ensures Split(Join(columns, ','), ',') == columns
    ensures Split(Placeholders(|columns|), ',') == Repeat('?', |columns|)
  {
    SplitJoin(columns, ',');
    SplitJoin(Repeat('?', |columns|), ',');
  }

  /** The column list and placeholder list of the statement the script
      prepares for the reshaped frame. Both texts are written nested the way
      `Join` builds them, part, comma, rest, which keeps the proof cheap. */
  lemma NewDataStatement()
    ensures Join(NewColumns, ',') == "date_col" + "," + ("attribute_col" + "," + ("numerical_col" + "," + "activity_col"))
    ensures Placeholders(|NewColumns|) == "?" + "," + ("?" + "," + ("?" + "," + "?"))
  {
    var c3 := ["activity_col"];
    var c2 := ["numerical_col"] + c3;
    var c1 := ["attribute_col"] + c2;
    assert NewColumns == ["date_col"] + c1;
    assert Join(c3, ',') == "activity_col";
    assert Join(c2, ',') == "numerical_col" + "," + "activity_col";
    assert Join(c1, ',') == "attribute_col" + "," + ("numerical_col" + "," + "activity_col");
    var q1 := Repeat('?', 1);
    var q2 := Repeat('?', 2);
    var q3 := Repeat('?', 3);
    assert q1 == ["?"] && q2 == ["?"] + q1 && q3 == ["?"] + q2 && Repeat('?', 4) == ["?"] + q3;
    assert Join(q1, ',') == "?";
    assert Join(q2, ',') == "?" + "," + "?";
    assert Join(q3, ',') == "?" + "," + ("?" + "," + "?");
  }

  /** A record as the list of its cells, in column order. */
  function Cells(o: OutputRow): (cells: seq<Cell>)
    ensures |cells| == |NewColumns|
  {
    [o.dateCol, o.attributeCol, o.numericalCol, Value(o.activityCol)]
  }

  /** `row.where(pd.notnull(row), None).tolist()`: missing cells become `None`,
      every other cell is passed as it is. */
  function Scrub(cells: seq<Cell>): (params: seq<Option<string>>)
    ensures |params| == |cells|
    ensures forall i :: 0 <= i < |cells| ==> (params[i].None? <==> cells[i].Null?)
    ensures forall i :: 0 <= i < |cells| && cells[i].Value? ==> params[i] == Some(cells[i].shown)
  {
    seq(|cells|, i requires 0 <= i < |cells| => if cells[i].Null? then None else Some(cells[i].shown))
  }

  /** What the destination holds for a parameter list, read back: SQL NULL
      comes back as Python's `None`. */
  function Restore(params: seq<Option<string>>): seq<Cell>
  {
    seq(|params|, i requires 0 <= i < |params| => if params[i].None? then Null("None") else Value(params[i].value))
  }

  /** Scrubbing loses nothing but the kind of missing marker: every present
      cell reads back unchanged, and every missing one reads back as `None`. */
  lemma RestoreScrub(cells: seq<Cell>)
    ensures |Restore(Scrub(cells))| == |cells|
    ensures forall i :: 0 <= i < |cells| ==>
      Restore(Scrub(cells))[i] == if cells[i].Null? then Null("None") else cells[i]
  {
  }

  /** The executions for a reshaped frame: one per record, in order. */
  function Inserts(table: string, records: seq<OutputRow>): (log: seq<Execution>)
    ensures |log| == |records|
    ensures forall i :: 0 <= i < |log| ==> |log[i].params| == |NewColumns|
  {
    var stmt := InsertStatement(table, NewColumns);
    seq(|records|, i requires 0 <= i < |records| => Execution(stmt, Scrub(Cells(records[i]))))
  }

  /** The insert loop: one `cursor.execute` per record of the reshaped frame. */
  method InsertAll(table: string, records: seq<OutputRow>) returns (log: seq<Execution>)
    ensures |log| == |records|
    ensures forall i :: 0 <= i < |records| ==>
      log[i].statement == InsertStatement(table, NewColumns) && log[i].params == Scrub(Cells(records[i]))
  {
    var stmt := InsertStatement(table, NewColumns);
    log := [];
    for i := 0 to |records|
      invariant |log| == i
      invariant forall j :: 0 <= j < i ==> log[j] == Execution(stmt, Scrub(Cells(records[j])))
    {
      var values := Scrub(Cells(records[i]));
      log := log + [Execution(stmt, values)];
    }
  }

  // ---------------------------------------------------------------------------
  // The whole run

  /** One run of the load, from the downloaded submissions, the destination's
      `MAX(date)` and today's date to the inserts it executes. */
  function Load(survey: seq<SurveyRow>, maxSqlDate: Option<string>, today: Date, table: string)
    : (r: Result<seq<Execution>, LoadError>)
    requires ValidDate(today)
    ensures maxSqlDate.None? ==> r == Failure(EmptyDestination)
    ensures maxSqlDate.Some? ==> (r.Success? <==> ParseDate(maxSqlDate.value).Success?)
  {
    var minText :- ResolveWatermark(maxSqlDate);
    var todayText := FormatDate(today);
    ParseFormat(today);
    // the filter compares the date column with these two strings, which pandas reads as dates
    var kept := Filter(survey, ParseDate(minText).value, ParseDate(todayText).value);
    Success(Inserts(table, FanOutSpec(kept)))
  }

  /** With a readable watermark the run inserts exactly the fan-out of the
      submissions dated strictly between the watermark and today: one insert
      per selected option, each with one parameter per column. */
  lemma LoadSucceeds(survey: seq<SurveyRow>, raw: string, watermark: Date, today: Date, table: string)
    requires ValidDate(today) && ParseDate(raw) == Success(watermark)
    ensures Load(survey, Some(raw), today, table) == Success(Inserts(table, FanOutSpec(Filter(survey, watermark, today))))
    ensures |Load(survey, Some(raw), today, table).value| == TokenTotal(Filter(survey, watermark, today))
  {
    ParseFormat(today);
  }

  /** The script's steps in order, calling the two loops. */
  method IncrementalLoad(survey: seq<SurveyRow>, maxSqlDate: Option<string>, today: Date, table: string)
    returns (r: Result<seq<Execution>, LoadError>)
    requires ValidDate(today)
    ensures r == Load(survey, maxSqlDate, today, table)
  {
    var watermark := ResolveWatermark(maxSqlDate);
    if watermark.Failure? {
      return Failure(watermark.error);
    }
    var minText := watermark.value;
    var todayText := FormatDate(today);
    ParseFormat(today);
    var kept := Filter(survey, ParseDate(minText).value, ParseDate(todayText).value);
    var records := FanOut(kept);
    var log := InsertAll(table, records);
    assert log == Inserts(table, records);
    return Success(log);
  }
}
