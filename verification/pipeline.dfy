/** How the loop's output meets the results handler: the list the loop
    returns, saved and summarised. */
module Pipeline {
  import opened Outcomes
  import opened Strings
  import opened Tables
  import opened ModelProcessing
  import opened ResultsHandler

  /** The list of dicts `process_questions_with_models` returns. */
  function ToRecords(results: seq<QuestionResult>): (records: seq<Record>)
    ensures |records| == |results|
    ensures forall k :: 0 <= k < |results| ==> records[k] == ToRecord(results[k])
  {
    seq(|results|, k requires 0 <= k < |results| => ToRecord(results[k]))
  }

  lemma ToRecordFields(r: QuestionResult)
    ensures Keys(ToRecord(r)) == ResultColumns
    ensures Get(ToRecord(r), BaseKey) == ResponseCell(r.baseModelResponse)
    ensures Get(ToRecord(r), RagKey) == ResponseCell(r.ragModelResponse)
    ensures forall i :: 0 <= i < |ResultColumns| ==> Get(ToRecord(r), ResultColumns[i]) == ToRecord(r)[i].1
  {
    var rec := ToRecord(r);
    ResultColumnsDistinct();
    assert Keys(rec) == ResultColumns;
    forall i | 0 <= i < |ResultColumns|
      ensures Get(rec, ResultColumns[i]) == rec[i].1
    {
      assert ResultColumns[i] !in Keys(rec[..i]) by {
        assert Keys(rec[..i]) == ResultColumns[..i];
      }
    }
    assert Get(rec, BaseKey) == rec[2].1 by {
      assert BaseKey == ResultColumns[2];
    }
    assert Get(rec, RagKey) == rec[3].1 by {
      assert RagKey == ResultColumns[3];
    }
  }

  /** A row on which one of the two calls raised. */
  predicate RowFailed(transport: Transport, baseModel: ModelConfig, ragModel: ModelConfig, question: string, row: nat) {
    transport(row, baseModel, question).Err? || transport(row, ragModel, question).Err?
  }

  /** Every error marker the loop writes is read as a failure by the summary,
      in both columns of the failed row. */
  lemma ErrorMarkersCountAsFailures(transport: Transport, baseModel: ModelConfig, ragModel: ModelConfig, questions: seq<string>, k: nat)
    requires k < |questions|
    requires RowFailed(transport, baseModel, ragModel, questions[k], k)
    ensures ShowsAsError(BaseCells(Evaluate(transport, baseModel, ragModel, questions))[k])
    ensures ShowsAsError(RagCells(Evaluate(transport, baseModel, ragModel, questions))[k])
  {
    var run := EvaluateRow(transport, k, baseModel, ragModel, questions[k]);
    assert run.base.Some? && StartsWith(run.base.value, ErrorTag);
  }

  /** The list summary can read the loop's output exactly when no answered
      call came back without a `response` field (a `None` there makes
      `.startswith` raise). */
  lemma LoopOutputSummarizable(transport: Transport, baseModel: ModelConfig, ragModel: ModelConfig, questions: seq<string>)
    ensures CanSummarize(Records(ToRecords(Evaluate(transport, baseModel, ragModel, questions)))) <==>
      forall k :: 0 <= k < |questions| && !RowFailed(transport, baseModel, ragModel, questions[k], k) ==>
        "response" in transport(k, baseModel, questions[k]).value.fields && "response" in transport(k, ragModel, questions[k]).value.fields
  {
    var results := Evaluate(transport, baseModel, ragModel, questions);
    var records := ToRecords(results);
    forall k | 0 <= k < |questions|
      ensures (Get(records[k], BaseKey).Text? && Get(records[k], RagKey).Text?) <==>
        (!RowFailed(transport, baseModel, ragModel, questions[k], k) ==>
          "response" in transport(k, baseModel, questions[k]).value.fields && "response" in transport(k, ragModel, questions[k]).value.fields)
    {
      ToRecordFields(results[k]);
      var run := EvaluateRow(transport, k, baseModel, ragModel, questions[k]);
      assert results[k].baseModelResponse == run.base && results[k].ragModelResponse == run.rag;
    }
  }

  /** The summary cells of the loop's list are its response columns. */
  lemma SummaryCellsOfLoopOutput(results: seq<QuestionResult>)
    requires CanSummarize(Records(ToRecords(results)))
    ensures SummaryCells(Records(ToRecords(results)), BaseKey) == BaseCells(results)
    ensures SummaryCells(Records(ToRecords(results)), RagKey) == RagCells(results)
  {
    forall k | 0 <= k < |results|
      ensures Get(ToRecords(results)[k], BaseKey) == ResponseCell(results[k].baseModelResponse)
      ensures Get(ToRecords(results)[k], RagKey) == ResponseCell(results[k].ragModelResponse)
    {
      ToRecordFields(results[k]);
    }
  }

  /** The number of `true` entries. */
  function CountTrue(flags: seq<bool>): (count: nat)
    ensures count <= |flags|
  {
    if |flags| == 0 then 0
    else CountTrue(flags[..|flags| - 1]) + (if flags[|flags| - 1] then 1 else 0)
  }

  /** Which rows failed, row by row. */
  function FailedFlags(transport: Transport, baseModel: ModelConfig, ragModel: ModelConfig, questions: seq<string>): (flags: seq<bool>)
    ensures |flags| == |questions|
    ensures forall k :: 0 <= k < |questions| ==> flags[k] == RowFailed(transport, baseModel, ragModel, questions[k], k)
  {
    seq(|questions|, k requires 0 <= k < |questions| => RowFailed(transport, baseModel, ragModel, questions[k], k))
  }

  /** The number of failed rows. */
  function FailedRows(transport: Transport, baseModel: ModelConfig, ragModel: ModelConfig, questions: seq<string>): nat {
    CountTrue(FailedFlags(transport, baseModel, ragModel, questions))
  }

  /** If every flagged cell shows an error, at most the unflagged cells count
      as successes; exactly those if no unflagged cell shows an error. */
  lemma {:induction false} CountSuccessesBound(cells: seq<Cell>, flags: seq<bool>)
    requires |cells| == |flags|
    requires forall k :: 0 <= k < |cells| && flags[k] ==> ShowsAsError(cells[k])
    ensures CountSuccesses(cells) <= |cells| - CountTrue(flags)
    ensures (forall k :: 0 <= k < |cells| && !flags[k] ==> !ShowsAsError(cells[k])) ==>
      CountSuccesses(cells) == |cells| - CountTrue(flags)
    decreases |cells|
  {
    if |cells| > 0 {
      var n := |cells| - 1;
      assert forall k :: 0 <= k < n ==> cells[..n][k] == cells[k] && flags[..n][k] == flags[k];
      CountSuccessesBound(cells[..n], flags[..n]);
    }
  }

  /** No call that succeeded returned text that itself starts with `ERROR:`. */
  predicate NoFalseAlarms(transport: Transport, baseModel: ModelConfig, ragModel: ModelConfig, questions: seq<string>) {
    forall k :: 0 <= k < |questions| && !RowFailed(transport, baseModel, ragModel, questions[k], k) ==>
      && !ShowsAsError(BaseCells(Evaluate(transport, baseModel, ragModel, questions))[k])
      && !ShowsAsError(RagCells(Evaluate(transport, baseModel, ragModel, questions))[k])
  }

  /** The summary of the loop's list: per model, at most the rows on which
      neither call failed count as successes, and exactly those when no
      successful answer itself begins with `ERROR:`. */
  lemma SummaryOfLoopOutput(transport: Transport, baseModel: ModelConfig, ragModel: ModelConfig, questions: seq<string>, outputFile: Option<string>)
    requires Truthy(outputFile)
    requires CanSummarize(Records(ToRecords(Evaluate(transport, baseModel, ragModel, questions))))
    ensures var s := PrintEvaluationSummary(Records(ToRecords(Evaluate(transport, baseModel, ragModel, questions))), outputFile);
      && s.Completed?
      && s.total == |questions|
      && s.baseSuccesses <= |questions| - FailedRows(transport, baseModel, ragModel, questions)
      && s.ragSuccesses <= |questions| - FailedRows(transport, baseModel, ragModel, questions)
      && (NoFalseAlarms(transport, baseModel, ragModel, questions) ==>
            s.baseSuccesses == s.ragSuccesses == |questions| - FailedRows(transport, baseModel, ragModel, questions))
  {
    SummaryCellsOfLoopOutput(Evaluate(transport, baseModel, ragModel, questions));
    LoopColumnCounts(transport, baseModel, ragModel, questions);
  }

  /** The success counts of the loop's two response columns, bounded by the
      rows on which neither call failed. */
  lemma LoopColumnCounts(transport: Transport, baseModel: ModelConfig, ragModel: ModelConfig, questions: seq<string>)
    ensures var results := Evaluate(transport, baseModel, ragModel, questions);
      var failed := FailedRows(transport, baseModel, ragModel, questions);
      && CountSuccesses(BaseCells(results)) <= |questions| - failed
      && CountSuccesses(RagCells(results)) <= |questions| - failed
      && (NoFalseAlarms(transport, baseModel, ragModel, questions) ==>
            CountSuccesses(BaseCells(results)) == CountSuccesses(RagCells(results)) == |questions| - failed)
  {
    var results := Evaluate(transport, baseModel, ragModel, questions);
    var flags := FailedFlags(transport, baseModel, ragModel, questions);
    forall k | 0 <= k < |questions| && flags[k]
      ensures ShowsAsError(BaseCells(results)[k]) && ShowsAsError(RagCells(results)[k])
    {
      ErrorMarkersCountAsFailures(transport, baseModel, ragModel, questions, k);
    }
    CountSuccessesBound(BaseCells(results), flags);
    CountSuccessesBound(RagCells(results), flags);
  }

  /** Saving the loop's non-empty list writes exactly the four result columns,
      row `k` holding `k`, the question and the two responses. */
  lemma SavedLoopOutput(transport: Transport, baseModel: ModelConfig, ragModel: ModelConfig, questions: seq<string>)
    requires |questions| > 0
    ensures var results := Evaluate(transport, baseModel, ragModel, questions);
      var r := ResultsTable(Records(ToRecords(results)));
      && r.Ok?
      && r.value.columns == ResultColumns
      && |r.value.rows| == |questions|
      && forall k :: 0 <= k < |questions| ==>
           r.value.rows[k] == [Int(k), Text(questions[k]), ResponseCell(results[k].baseModelResponse), ResponseCell(results[k].ragModelResponse)]
  {
    SavedResults(Evaluate(transport, baseModel, ragModel, questions));
  }

  /** Saving a non-empty list of the loop's dicts writes the four result
      columns, one row per dict holding its id, question and responses. */
  lemma SavedResults(results: seq<QuestionResult>)
    requires |results| > 0
    ensures var r := ResultsTable(Records(ToRecords(results)));
      && r.Ok?
      && r.value.columns == ResultColumns
      && |r.value.rows| == |results|
      && forall k :: 0 <= k < |results| ==>
           r.value.rows[k] == [Int(results[k].questionId), Text(results[k].question), ResponseCell(results[k].baseModelResponse), ResponseCell(results[k].ragModelResponse)]
  {
    UnionOfLoopRecords(results);
    ResultsTableOfResultKeys(ToRecords(results));
    RowsOfLoopRecords(ResultsTable(Records(ToRecords(results))).value, results);
  }

  /** A table whose cells are read from the loop's dicts holds, row by row,
      the id, the question and the two responses. */
  lemma RowsOfLoopRecords(t: Table, results: seq<QuestionResult>)
    requires WellFormed(t) && t.columns == ResultColumns && |t.rows| == |results|
    requires forall k, i :: 0 <= k < |results| && 0 <= i < |ResultColumns| ==>
      t.rows[k][i] == Get(ToRecords(results)[k], ResultColumns[i])
    ensures forall k :: 0 <= k < |results| ==>
      t.rows[k] == [Int(results[k].questionId), Text(results[k].question), ResponseCell(results[k].baseModelResponse), ResponseCell(results[k].ragModelResponse)]
  {
    forall k | 0 <= k < |results|
      ensures t.rows[k] == [Int(results[k].questionId), Text(results[k].question), ResponseCell(results[k].baseModelResponse), ResponseCell(results[k].ragModelResponse)]
    {
      RowOfLoopRecord(t, ToRecords(results), results[k], k);
    }
  }

  /** The loop's dicts all have the four result keys, in order, so the frame
      built from them has exactly those columns. */
  lemma UnionOfLoopRecords(results: seq<QuestionResult>)
    requires |results| > 0
    ensures UnionKeys(ToRecords(results)) == ResultColumns
  {
    var records := ToRecords(results);
    forall k | 0 <= k < |records|
      ensures Keys(records[k]) == ResultColumns
    {
      ToRecordFields(results[k]);
    }
    ResultColumnsDistinct();
    UnionKeysOfUniform(records, ResultColumns);
  }

  lemma RowOfLoopRecord(t: Table, records: seq<Record>, result: QuestionResult, k: nat)
    requires WellFormed(t) && t.columns == ResultColumns && k < |t.rows| && k < |records|
    requires records[k] == ToRecord(result)
    requires forall i :: 0 <= i < |ResultColumns| ==> t.rows[k][i] == Get(records[k], ResultColumns[i])
    ensures t.rows[k] == [Int(result.questionId), Text(result.question), ResponseCell(result.baseModelResponse), ResponseCell(result.ragModelResponse)]
  {
    ToRecordFields(result);
  }

  const ScenarioQuestions: seq<string> := ["How many assignments are there?", "What is the deadline?"]
  const ScenarioAnswer := "There are four assignments."

  /** A service that answers every call on the first row and fails with
      `timeout` on every later one. */
  function ScenarioService(row: nat, config: ModelConfig, question: string): Outcome<Reply> {
    if row == 0 then Ok(Reply(map["response" := ScenarioAnswer])) else Err("timeout")
  }

  lemma ScenarioResults(baseModel: ModelConfig, ragModel: ModelConfig)
    ensures var results := Evaluate(ScenarioService, baseModel, ragModel, ScenarioQuestions);
      && |results| == 2
      && results[0].baseModelResponse == results[0].ragModelResponse == Some(ScenarioAnswer)
      && results[1].baseModelResponse == results[1].ragModelResponse == Some("ERROR: timeout")
  {
    var results := Evaluate(ScenarioService, baseModel, ragModel, ScenarioQuestions);
    var run0 := EvaluateRow(ScenarioService, 0, baseModel, ragModel, ScenarioQuestions[0]);
    var run1 := EvaluateRow(ScenarioService, 1, baseModel, ragModel, ScenarioQuestions[1]);
    assert results[0].baseModelResponse == run0.base && results[0].ragModelResponse == run0.rag;
    assert results[1].baseModelResponse == run1.base && results[1].ragModelResponse == run1.rag;
    assert ErrorMarker("timeout") == "ERROR: timeout";
  }

  /** The two-question run: both models answer the first question and the
      service fails on the second. Two rows come out, the second with error
      markers in both columns, and the summary reports 1/2 for each model. */
  lemma TwoQuestionScenario(baseModel: ModelConfig, ragModel: ModelConfig)
    ensures var results := Evaluate(ScenarioService, baseModel, ragModel, ScenarioQuestions);
      && |results| == 2
      && results[1].baseModelResponse == results[1].ragModelResponse == Some("ERROR: timeout")
      && CanSummarize(Records(ToRecords(results)))
      && PrintEvaluationSummary(Records(ToRecords(results)), Some("Output/llm_evaluation_results.xlsx"))
           == Completed("Output/llm_evaluation_results.xlsx", 2, 1, 1)
  {
    ScenarioResults(baseModel, ragModel);
    ScenarioCounts(baseModel, ragModel);
    SummaryOfLoopOutput(ScenarioService, baseModel, ragModel, ScenarioQuestions, Some("Output/llm_evaluation_results.xlsx"));
  }

  /** In the two-question run one row fails, no answer is a false alarm, and
      the summary can read the list. */
  lemma ScenarioCounts(baseModel: ModelConfig, ragModel: ModelConfig)
    ensures NoFalseAlarms(ScenarioService, baseModel, ragModel, ScenarioQuestions)
    ensures FailedRows(ScenarioService, baseModel, ragModel, ScenarioQuestions) == 1
    ensures CanSummarize(Records(ToRecords(Evaluate(ScenarioService, baseModel, ragModel, ScenarioQuestions))))
  {
    ScenarioResults(baseModel, ragModel);
    assert NoFalseAlarms(ScenarioService, baseModel, ragModel, ScenarioQuestions) by {
      assert ScenarioAnswer[0] != ErrorTag[0];
    }
    assert FailedRows(ScenarioService, baseModel, ragModel, ScenarioQuestions) == 1 by {
      var flags := FailedFlags(ScenarioService, baseModel, ragModel, ScenarioQuestions);
      assert flags == [false, true];
      assert flags[..1] == [false] && [false][..0] == [];
      assert CountTrue([false]) == 0;
    }
    LoopOutputSummarizable(ScenarioService, baseModel, ragModel, ScenarioQuestions);
  }
}
