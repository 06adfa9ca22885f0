/** Saving the results as a spreadsheet and summarising them. The workbook
    itself (openpyxl, cell alignment, the file on disk) is not modelled: a save
    produces the sheet that would be written, or nothing when the write fails. */
module ResultsHandler {
  import opened Outcomes
  import opened Strings
  import opened Tables

  const SheetName := "LLM_Evaluation_Results"

  /** The file name `save_results_to_excel` uses by default, inside the
      `Output` folder next to the module. */
  const DefaultOutputFilename := "llm_evaluation_results.xlsx"

  /** The columns a list of result dicts is reduced to, in this order. */
  const ResultColumns: seq<string> := ["question_id", "question", "base_model_response", "rag_model_response"]

  /** The tag the summary takes as the mark of a failed call. */
  const ErrorTag := "ERROR:"

  // ---------------------------------------------------------------------------
  // Column widths

  /** The width given to a column, by name: identifiers narrow, the question
      medium, any response column wide, anything else the default. The tests
      are made in that order, so `question_id` is narrow although it starts
      with `question`. */
  function ColumnWidth(column: string): (width: nat)
    ensures width == 10 <==> column == "qid" || column == "question_id"
    ensures width == 60 <==> column == "question"
    ensures width == 80 <==>
      column != "qid" && column != "question_id" && column != "question" && exists i :: OccursAt(Lower(column), "response", i)
    ensures width == 30 <==>
      column != "qid" && column != "question_id" && column != "question" && !exists i :: OccursAt(Lower(column), "response", i)
  {
    if column in ["qid", "question_id"] then 10
    else if column == "question" then 60
    else if Contains(Lower(column), "response") then 80
    else 30
  }

  lemma LowerIdempotent(s: string)
    ensures Lower(Lower(s)) == Lower(s)
  {
    var once := Lower(s);
    forall i | 0 <= i < |s|
      ensures Lower(once)[i] == once[i]
    {
    }
  }

  /** Only the three exact names are case-sensitive: for every other column
      the width depends on the lower-cased name alone. */
  lemma ColumnWidthIgnoresCase(column: string)
    requires column != "qid" && column != "question_id" && column != "question"
    requires Lower(column) != "qid" && Lower(column) != "question_id" && Lower(column) != "question"
    ensures ColumnWidth(column) == ColumnWidth(Lower(column))
  {
    LowerIdempotent(column);
  }

  /** The four columns of the list form get 10, 60, 80 and 80. */
  lemma ResultColumnWidths()
    ensures ColumnWidth(ResultColumns[0]) == 10
    ensures ColumnWidth(ResultColumns[1]) == 60
    ensures ColumnWidth(ResultColumns[2]) == 80
    ensures ColumnWidth(ResultColumns[3]) == 80
  {
    BaseResponseWidth();
    RagResponseWidth();
  }

  lemma BaseResponseWidth()
    ensures ColumnWidth("base_model_response") == 80
  {
    WideColumn("base_model_response", 11);
  }

  lemma RagResponseWidth()
    ensures ColumnWidth("rag_model_response") == 80
  {
    WideColumn("rag_model_response", 10);
  }

  /** A lower-case name longer than any of the three exact names, with
      `response` in it, is a wide column. */
  lemma WideColumn(column: string, i: nat)
    requires |column| > |"question_id"|
    requires forall k :: 0 <= k < |column| ==> !('A' <= column[k] <= 'Z')
    requires OccursAt(column, "response", i)
    ensures ColumnWidth(column) == 80
  {
    assert Lower(column) == column;
  }

  // ---------------------------------------------------------------------------
  // Column letters

  /** The letter the source computes for the column at 1-based position
      `index`: `chr(64 + index)`. */
  function ColumnLetterAsWritten(index: nat): (c: char)
    requires 1 <= index && 64 + index < 0xD800
    ensures 'A' <= c <= 'Z' <==> index <= 26
  {
    (64 + index) as char
  }

  /** A spreadsheet column name: one or more capital letters. */
  predicate IsColumnName(s: string) {
    |s| > 0 && forall i :: 0 <= i < |s| ==> 'A' <= s[i] <= 'Z'
  }

  /** The spreadsheet name of the column at 1-based position `index`:
      A..Z, then AA..AZ, BA.., and so on (bijective base 26). */
  function ColumnName(index: nat): (name: string)
    requires index >= 1
    ensures IsColumnName(name)
    decreases index
  {
    if index <= 26 then [(64 + index) as char]
    else ColumnName((index - 1) / 26) + [(65 + (index - 1) % 26) as char]
  }

  /** The 1-based position a column name stands for. */
  function ColumnIndex(name: string): (index: nat)
    requires IsColumnName(name)
    ensures index >= 1
  {
    var digit := name[|name| - 1] as int - 64;
    if |name| == 1 then digit
    else ColumnIndex(name[..|name| - 1]) * 26 + digit
  }

  /** Every position has a name that reads back as that position. */
  lemma {:induction false} ColumnIndexOfName(index: nat)
    requires index >= 1
    ensures ColumnIndex(ColumnName(index)) == index
    decreases index
  {
    if index > 26 {
      var q, r := (index - 1) / 26, (index - 1) % 26;
      var name := ColumnName(index);
      ColumnIndexOfName(q);
      assert name[..|name| - 1] == ColumnName(q);
    }
  }

  /** Every name is the name of the position it reads as. */
  lemma {:induction false} ColumnNameOfIndex(name: string)
    requires IsColumnName(name)
    ensures ColumnName(ColumnIndex(name)) == name
    decreases |name|
  {
    if |name| > 1 {
      var prefix := name[..|name| - 1];
      var digit := name[|name| - 1] as int - 64;
      var high := ColumnIndex(prefix);
      ColumnNameOfIndex(prefix);
      var index := high * 26 + digit;
      assert (index - 1) / 26 == high && (index - 1) % 26 == digit - 1;
      assert name == prefix + [name[|name| - 1]];
    }
  }

  lemma ColumnNamesRoundTrip()
    ensures forall index: nat :: index >= 1 ==> ColumnIndex(ColumnName(index)) == index
  {
    forall index: nat | index >= 1
      ensures ColumnIndex(ColumnName(index)) == index
    {
      ColumnIndexOfName(index);
    }
  }

  /** Up to 26 columns the source's letter is the right name. */
  lemma AsWrittenAgreesUpTo26(index: nat)
    requires 1 <= index <= 26
    ensures [ColumnLetterAsWritten(index)] == ColumnName(index)
    ensures IsColumnName([ColumnLetterAsWritten(index)])
  {
  }

  /** From the 27th column on, the source's letter is not a column name at all
      (the 27th column, `AA`, gets `[`). */
  lemma AsWrittenInvalidBeyond26(index: nat)
    requires 26 < index && 64 + index < 0xD800
    ensures !IsColumnName([ColumnLetterAsWritten(index)])
    ensures ColumnLetterAsWritten(27) == '[' && ColumnName(27) == "AA"
  {
    assert [ColumnLetterAsWritten(index)][0] > 'Z';
  }

  /** The width settings for a sheet with these columns: one per column, keyed
      by that column's spreadsheet name. */
  function ColumnWidths(columns: seq<string>): (widths: seq<(string, nat)>)
    ensures |widths| == |columns|
    ensures forall j :: 0 <= j < |columns| ==> IsColumnName(widths[j].0) && ColumnIndex(widths[j].0) == j + 1
    ensures forall j :: 0 <= j < |columns| ==> widths[j].1 == ColumnWidth(columns[j])
    ensures forall i, j :: 0 <= i < j < |columns| ==> widths[i].0 != widths[j].0
  {
    ColumnNamesRoundTrip();
    seq(|columns|, j requires 0 <= j < |columns| => (ColumnName(j + 1), ColumnWidth(columns[j])))
  }

  /** The width settings as the source keys them: the column at position
      `j + 1` under `chr(64 + j + 1)`. The keys are column names exactly for
      the first 26 columns. */
  function ColumnWidthsAsWritten(columns: seq<string>): (widths: seq<(string, nat)>)
    requires 64 + |columns| < 0xD800
    ensures |widths| == |columns|
    ensures forall j :: 0 <= j < |columns| ==> widths[j].1 == ColumnWidth(columns[j])
    ensures forall j :: 0 <= j < |columns| ==> (IsColumnName(widths[j].0) <==> j < 26)
  {
    var widths := seq(|columns|, j requires 0 <= j < |columns| => ([ColumnLetterAsWritten(j + 1)], ColumnWidth(columns[j])));
    assert forall j :: 0 <= j < |columns| ==> widths[j].0[0] == ColumnLetterAsWritten(j + 1);
    widths
  }

  /** On a sheet of at most 26 columns the source's settings are exactly the
      corrected ones. */
  lemma AsWrittenWidthsAgreeUpTo26(columns: seq<string>)
    requires |columns| <= 26
    ensures ColumnWidthsAsWritten(columns) == ColumnWidths(columns)
  {
    var written, corrected := ColumnWidthsAsWritten(columns), ColumnWidths(columns);
    forall j | 0 <= j < |columns|
      ensures written[j] == corrected[j]
    {
      AsWrittenAgreesUpTo26(j + 1);
    }
  }

  // ---------------------------------------------------------------------------
  // Saving

  /** What `save_results_to_excel` and `print_evaluation_summary` accept: a
      data frame, or a list of dicts. */
  datatype ResultsInput = Frame(table: Table) | Records(records: seq<Record>)

  predicate ValidInput(input: ResultsInput) {
    input.Frame? ==> WellFormed(input.table)
  }

  /** The frame that is written: a frame as given; a list of dicts turned into
      a frame and, when it has a `question_id` column, cut down to the four
      result columns (a `KeyError` if one of them is missing). */
  function ResultsTable(input: ResultsInput): (r: Outcome<Table>)
    requires ValidInput(input)
    ensures r.Ok? ==> WellFormed(r.value)
    ensures input.Frame? ==> r == Ok(input.table)
    ensures input.Records? && "question_id" !in UnionKeys(input.records) ==> r == Ok(FromRecords(input.records))
    ensures input.Records? && "question_id" in UnionKeys(input.records) ==>
      && (r.Ok? <==> forall i :: 0 <= i < |ResultColumns| ==> ResultColumns[i] in UnionKeys(input.records))
      && (r.Ok? ==> r.value.columns == ResultColumns && |r.value.rows| == |input.records|)
      && (r.Ok? ==> forall k, i :: 0 <= k < |input.records| && 0 <= i < |ResultColumns| ==>
            r.value.rows[k][i] == Get(input.records[k], ResultColumns[i]))
  {
    match input
    case Frame(t) => Ok(t)
    case Records(records) =>
      var t := FromRecords(records);
      if "question_id" in t.columns then
        ResultColumnsDistinct();
        SelectResultColumns(records);
        Select(t, ResultColumns)
      else
        Ok(t)
  }

  lemma ResultColumnsDistinct()
    ensures Distinct(ResultColumns)
  {
    assert |ResultColumns[0]| == 11 && |ResultColumns[1]| == 8 && |ResultColumns[2]| == 19 && |ResultColumns[3]| == 18;
  }

  /** Cutting the frame built from a list of dicts down to the result columns
      keeps, in each row, the dicts' values under those keys. */
  lemma SelectResultColumns(records: seq<Record>)
    ensures Select(FromRecords(records), ResultColumns).Ok? ==>
      forall k, i :: 0 <= k < |records| && 0 <= i < |ResultColumns| ==>
        Select(FromRecords(records), ResultColumns).value.rows[k][i] == Get(records[k], ResultColumns[i])
  {
    var t := FromRecords(records);
    var r := Select(t, ResultColumns);
    if r.Ok? {
      forall k, i | 0 <= k < |records| && 0 <= i < |ResultColumns|
        ensures r.value.rows[k][i] == Get(records[k], ResultColumns[i])
      {
        var j := IndexOf(t.columns, ResultColumns[i]).value;
        assert r.value.rows[k][i] == t.rows[k][j];
      }
    }
  }

  /** A list of dicts whose keys are exactly the result columns is saved as
      those four columns, every cell read from the matching dict. */
  lemma ResultsTableOfResultKeys(records: seq<Record>)
    requires UnionKeys(records) == ResultColumns
    ensures var r := ResultsTable(Records(records));
      && r.Ok? && r.value.columns == ResultColumns && |r.value.rows| == |records|
      && forall k, i :: 0 <= k < |records| && 0 <= i < |ResultColumns| ==>
           r.value.rows[k][i] == Get(records[k], ResultColumns[i])
  {
    assert "question_id" in ResultColumns by {
      assert ResultColumns[0] == "question_id";
    }
  }

  /** The one sheet of the workbook: its name, its contents and the width set
      for each column. */
  datatype Sheet = Sheet(name: string, table: Table, widths: seq<(string, nat)>)

  datatype SavedFile = SavedFile(path: string, sheet: Sheet)

  /** `save_results_to_excel`. `outputPath` is the path the caller's file
      system gives `Output/<output_filename>`; `writeFailure` is the message of
      the exception the directory creation or the workbook writer raised, if
      any. Every failure comes back as `None`. */
  function SaveResultsToExcel(input: ResultsInput, outputPath: string, writeFailure: Option<string>): (saved: Option<SavedFile>)
    requires ValidInput(input)
    ensures saved.Some? <==> ResultsTable(input).Ok? && writeFailure.None?
    ensures saved.Some? ==>
      && saved.value.path == outputPath
      && saved.value.sheet.name == SheetName
      && saved.value.sheet.table == ResultsTable(input).value
    ensures saved.Some? ==>
      var sheet := saved.value.sheet;
      && |sheet.widths| == |sheet.table.columns|
      && forall j :: 0 <= j < |sheet.table.columns| ==>
           && IsColumnName(sheet.widths[j].0) && ColumnIndex(sheet.widths[j].0) == j + 1
           && sheet.widths[j].1 == ColumnWidth(sheet.table.columns[j])
    ensures saved.Some? && input.Frame? ==> saved.value.sheet.table == input.table
    ensures saved.Some? && input.Records? ==> |saved.value.sheet.table.rows| == |input.records|
  {
    match ResultsTable(input)
    case Err(_) => None
    case Ok(df) =>
      if writeFailure.Some? then None
      else Some(SavedFile(outputPath, Sheet(SheetName, df, ColumnWidths(df.columns))))
  }

  // ---------------------------------------------------------------------------
  // Summary

  /** `str(c).startswith('ERROR:')`: only text can start with the tag; the
      string form of a number, of `None` or of NaN never does. */
  predicate ShowsAsError(c: Cell) {
    c.Text? && StartsWith(c.text, ErrorTag)
  }

  /** The decimal digit `d`. */
  function DigitChar(d: nat): char
    requires d < 10
  {
    ('0' as int + d) as char
  }

  /** `str(n)` for a natural number. */
  function NatText(n: nat): (text: string)
    ensures |text| >= 1 && '0' <= text[0] <= '9'
    decreases n
  {
    if n < 10 then [DigitChar(n)] else NatText(n / 10) + [DigitChar(n % 10)]
  }

  /** `str(c)` for a cell: text as it is, an integer in decimal, a missing
      value as `None` (pandas prints `nan` for a missing float; neither
      starts with the tag). */
  function CellText(c: Cell): (text: string)
    ensures c.Text? ==> text == c.text
    ensures !c.Text? ==> |text| < |ErrorTag| || text[0] == '-' || '0' <= text[0] <= '9'
  {
    match c
    case Text(s) => s
    case Int(i) => if i < 0 then "-" + NatText(-i) else NatText(i)
    case Null => "None"
  }

  /** Only text can show as an error: testing text cells alone is the same as
      testing `str(r).startswith('ERROR:')` on every cell. */
  lemma ShowsAsErrorIsTextTest(c: Cell)
    ensures ShowsAsError(c) <==> StartsWith(CellText(c), ErrorTag)
  {
    if !c.Text? {
      assert |CellText(c)| < |ErrorTag| || CellText(c)[0] != ErrorTag[0];
    }
  }

  /** The number of cells that do not show an error. */
  function CountSuccesses(cells: seq<Cell>): (n: nat)
    ensures n <= |cells|
    ensures n == |cells| <==> forall k :: 0 <= k < |cells| ==> !ShowsAsError(cells[k])
    ensures n == 0 <==> forall k :: 0 <= k < |cells| ==> ShowsAsError(cells[k])
  {
    if |cells| == 0 then 0
    else
      var init := cells[..|cells| - 1];
      assert forall k :: 0 <= k < |init| ==> init[k] == cells[k];
      CountSuccesses(init) + (if ShowsAsError(cells[|cells| - 1]) then 0 else 1)
  }

  /** The number of cells that show an error, counted from the front. */
  function CountFailures(cells: seq<Cell>): nat {
    if |cells| == 0 then 0
    else (if ShowsAsError(cells[0]) then 1 else 0) + CountFailures(cells[1..])
  }

  lemma {:induction false} CountSuccessesAppend(a: seq<Cell>, b: seq<Cell>)
    ensures CountSuccesses(a + b) == CountSuccesses(a) + CountSuccesses(b)
    decreases |b|
  {
    if |b| == 0 {
      assert a + b == a;
    } else {
      assert (a + b)[..|a + b| - 1] == a + b[..|b| - 1];
      CountSuccessesAppend(a, b[..|b| - 1]);
    }
  }

  /** Successes and failures together account for every row. */
  lemma {:induction false} SuccessesPlusFailures(cells: seq<Cell>)
    ensures CountSuccesses(cells) + CountFailures(cells) == |cells|
    decreases |cells|
  {
    if |cells| > 0 {
      SuccessesPlusFailures(cells[1..]);
      CountSuccessesAppend([cells[0]], cells[1..]);
      assert [cells[0]] + cells[1..] == cells;
    }
  }

  /** What `print_evaluation_summary` reports. */
  datatype Summary =
    | SaveFailed
    | Completed(outputFile: string, total: nat, baseSuccesses: nat, ragSuccesses: nat)

  /** Python truthiness of the `output_file` argument. */
  predicate Truthy(outputFile: Option<string>) {
    outputFile.Some? && outputFile.value != ""
  }

  const BaseKey := "base_model_response"
  const RagKey := "rag_model_response"

  /** Inputs the counting code can read without raising: a frame needs both
      response columns; a list needs both keys in every dict, with string
      values (`None.startswith` raises). */
  predicate CanSummarize(input: ResultsInput) {
    match input
    case Frame(t) => WellFormed(t) && BaseKey in t.columns && RagKey in t.columns
    case Records(records) =>
      forall k :: 0 <= k < |records| ==> Get(records[k], BaseKey).Text? && Get(records[k], RagKey).Text?
  }

  /** The values the summary tests for one response key, row by row. */
  function SummaryCells(input: ResultsInput, key: string): (cells: seq<Cell>)
    requires CanSummarize(input) && (key == BaseKey || key == RagKey)
    ensures input.Frame? ==> cells == Column(input.table, key)
    ensures input.Records? ==> |cells| == |input.records| && forall k :: 0 <= k < |cells| ==> cells[k] == Get(input.records[k], key)
  {
    match input
    case Frame(t) => Column(t, key)
    case Records(records) => seq(|records|, k requires 0 <= k < |records| => Get(records[k], key))
  }

  function RowCount(input: ResultsInput): nat {
    match input
    case Frame(t) => |t.rows|
    case Records(records) => |records|
  }

  /** `print_evaluation_summary`: nothing is counted when the save failed;
      otherwise the number of rows and, per model, the rows whose response
      does not start with `ERROR:`. */
  function PrintEvaluationSummary(input: ResultsInput, outputFile: Option<string>): (s: Summary)
    requires Truthy(outputFile) ==> CanSummarize(input)
    ensures s.SaveFailed? <==> !Truthy(outputFile)
    ensures s.Completed? ==>
      && s.outputFile == outputFile.value
      && s.total == RowCount(input)
      && s.baseSuccesses <= s.total && s.ragSuccesses <= s.total
      && s.baseSuccesses == CountSuccesses(SummaryCells(input, BaseKey))
      && s.ragSuccesses == CountSuccesses(SummaryCells(input, RagKey))
  {
    if !Truthy(outputFile) then SaveFailed
    else
      Completed(outputFile.value, RowCount(input),
        CountSuccesses(SummaryCells(input, BaseKey)), CountSuccesses(SummaryCells(input, RagKey)))
  }

  /** The frame branch counts a missing response (`None`, shown as "None") as
      a success. */
  lemma MissingResponseCountsAsSuccess(t: Table, k: nat)
    requires CanSummarize(Frame(t)) && k < |t.rows|
    requires Column(t, BaseKey)[k] == Null
    ensures CountSuccesses(Column(t, BaseKey)) >= 1
  {
    var cells := Column(t, BaseKey);
    assert !ShowsAsError(cells[k]);
  }

  /** On a non-empty list of dicts with string responses, the two branches
      count alike: the list and the frame built from it give the same summary. */
  lemma SummaryBranchesAgree(records: seq<Record>, outputFile: Option<string>)
    requires |records| > 0 && Truthy(outputFile)
    requires CanSummarize(Records(records))
    ensures CanSummarize(Frame(FromRecords(records)))
    ensures PrintEvaluationSummary(Records(records), outputFile) == PrintEvaluationSummary(Frame(FromRecords(records)), outputFile)
  {
    var t := FromRecords(records);
    assert BaseKey in Keys(records[0]) && RagKey in Keys(records[0]);
    assert BaseKey in t.columns && RagKey in t.columns;
    assert SummaryCells(Records(records), BaseKey) == SummaryCells(Frame(t), BaseKey);
    assert SummaryCells(Records(records), RagKey) == SummaryCells(Frame(t), RagKey);
  }
}
