/** The evaluation loop: every question is put to a base model and then to a
    retrieval-augmented (RAG) model, and one result is recorded per question.
    The LLM transport `query_llm` is not part of this model; it is a parameter
    that answers each call with a reply or an exception message. */
module ModelProcessing {
  import opened Outcomes
  import opened Strings
  import opened Tables
  import opened InputProcessing

  /** How to reach one deployment. The loop only hands it to the transport;
      the retrieval parameter group is folded into the transport's behaviour. */
  datatype ModelConfig = ModelConfig(
    accessToken: string,
    apiUrl: string,
    projectId: Option<string>,
    name: Option<string>,
    provider: Option<string>)

  /** The structured object `query_llm` returns. */
  datatype Reply = Reply(fields: map<string, string>)

  /** `query_llm(model=config, query=question)` as issued while row `row` is
      evaluated: a reply, or the message of the exception it raised. Indexing
      by row lets the service answer the same question differently on
      different rows. */
  type Transport = (nat, ModelConfig, string) -> Outcome<Reply>

  /** One call to the transport, as it appears in the call trace. */
  datatype Call = Call(row: nat, config: ModelConfig, question: string)

  /** One entry of the list the loop returns. */
  datatype QuestionResult = QuestionResult(
    questionId: int,
    question: string,
    baseModelResponse: Option<string>,
    ragModelResponse: Option<string>)

  const BaseResponseColumn := "base_model_response"
  const RagResponseColumn := "rag_model_response"
  const ErrorPrefix := "ERROR: "

  /** `f"ERROR: {str(e)}"`: the text stored in place of a response. It begins
      with the `ERROR:` tag the summary looks for, and the message follows. */
  function ErrorMarker(msg: string): (marker: string)
    ensures StartsWith(marker, "ERROR:") && StartsWith(marker, ErrorPrefix)
    ensures |marker| == |msg| + |ErrorPrefix| && marker[|ErrorPrefix|..] == msg
  {
    ErrorPrefix + msg
  }

  /** `execute_single_query`: the reply's `response` field, `None` when the
      reply has none (which is a success, not an error). Exceptions are not
      caught here. */
  function ExecuteSingleQuery(transport: Transport, row: nat, config: ModelConfig, question: string): (r: Outcome<Option<string>>)
    ensures r.Err? <==> transport(row, config, question).Err?
    ensures r.Err? ==> r.msg == transport(row, config, question).msg
    ensures r.Ok? ==> (r.value.None? <==> "response" !in transport(row, config, question).value.fields)
    ensures r.Ok? && r.value.Some? ==> r.value.value == transport(row, config, question).value.fields["response"]
  {
    match transport(row, config, question)
    case Err(msg) => Err(msg)
    case Ok(reply) => Ok(if "response" in reply.fields then Some(reply.fields["response"]) else None)
  }

  /** The calls one row makes: the base call, then the RAG call only if the
      base call returned. */
  function RowCalls(transport: Transport, row: nat, baseModel: ModelConfig, ragModel: ModelConfig, question: string): (calls: seq<Call>)
    ensures forall i :: 0 <= i < |calls| ==> calls[i].row == row
  {
    if transport(row, baseModel, question).Ok? then [Call(row, baseModel, question), Call(row, ragModel, question)]
    else [Call(row, baseModel, question)]
  }

  /** The two response fields of one row and the calls made for it. */
  datatype RowRun = RowRun(base: Option<string>, rag: Option<string>, calls: seq<Call>)

  /** One iteration of the loop. Both calls sit in one `try`, so a base
      failure skips the RAG call, and a RAG failure discards the base answer;
      in either case both fields carry the same error text. */
  function EvaluateRow(transport: Transport, row: nat, baseModel: ModelConfig, ragModel: ModelConfig, question: string): (run: RowRun)
    ensures run.calls == RowCalls(transport, row, baseModel, ragModel, question)
    ensures |run.calls| == 1 <==> transport(row, baseModel, question).Err?
    ensures transport(row, baseModel, question).Err? ==>
      run.base == run.rag == Some(ErrorMarker(transport(row, baseModel, question).msg))
    ensures transport(row, baseModel, question).Ok? && transport(row, ragModel, question).Err? ==>
      run.base == run.rag == Some(ErrorMarker(transport(row, ragModel, question).msg))
    ensures transport(row, baseModel, question).Ok? && transport(row, ragModel, question).Ok? ==>
      && run.base == ExecuteSingleQuery(transport, row, baseModel, question).value
      && run.rag == ExecuteSingleQuery(transport, row, ragModel, question).value
  {
    var calls := [Call(row, baseModel, question)];
    match ExecuteSingleQuery(transport, row, baseModel, question)
    case Err(e) => RowRun(Some(ErrorMarker(e)), Some(ErrorMarker(e)), calls)
    case Ok(baseResponse) =>
      var calls := calls + [Call(row, ragModel, question)];
      match ExecuteSingleQuery(transport, row, ragModel, question)
      case Err(e) => RowRun(Some(ErrorMarker(e)), Some(ErrorMarker(e)), calls)
      case Ok(ragResponse) => RowRun(baseResponse, ragResponse, calls)
  }

  /** The field a call's outcome would show if it were recorded on its own. */
  function Display(outcome: Outcome<Option<string>>): Option<string> {
    match outcome
    case Ok(response) => response
    case Err(msg) => Some(ErrorMarker(msg))
  }

  /** The alternative reading of the loop in which each call has its own error
      handler: both calls are always made and each field shows its own call. */
  function IndependentRow(transport: Transport, row: nat, baseModel: ModelConfig, ragModel: ModelConfig, question: string): RowRun {
    RowRun(
      Display(ExecuteSingleQuery(transport, row, baseModel, question)),
      Display(ExecuteSingleQuery(transport, row, ragModel, question)),
      [Call(row, baseModel, question), Call(row, ragModel, question)])
  }

  /** Where the shared handler and per-call handlers agree: the call lists
      agree exactly when the base call succeeds; the RAG field agrees whenever
      the base call succeeds; the base field agrees unless the RAG call fails
      after a base success. */
  lemma SharedHandlerVersusIndependent(transport: Transport, row: nat, baseModel: ModelConfig, ragModel: ModelConfig, question: string)
    ensures var run := EvaluateRow(transport, row, baseModel, ragModel, question);
      var alt := IndependentRow(transport, row, baseModel, ragModel, question);
      && (run.calls == alt.calls <==> transport(row, baseModel, question).Ok?)
      && (transport(row, baseModel, question).Ok? ==> run.rag == alt.rag)
      && (transport(row, baseModel, question).Err? || transport(row, ragModel, question).Ok? ==> run.base == alt.base)
  {
    var run := EvaluateRow(transport, row, baseModel, ragModel, question);
    var alt := IndependentRow(transport, row, baseModel, ragModel, question);
    if run.calls == alt.calls {
      assert |run.calls| == 2;
    }
  }

  /** What the loop computes: result `k` is row `k`'s evaluation, with
      `question_id == k`. */
  function Evaluate(transport: Transport, baseModel: ModelConfig, ragModel: ModelConfig, questions: seq<string>): seq<QuestionResult> {
    seq(|questions|, k requires 0 <= k < |questions| =>
      var run := EvaluateRow(transport, k, baseModel, ragModel, questions[k]);
      QuestionResult(k, questions[k], run.base, run.rag))
  }

  /** The calls made while evaluating the first `n` questions, in order. */
  function Trace(transport: Transport, baseModel: ModelConfig, ragModel: ModelConfig, questions: seq<string>, n: nat): seq<Call>
    requires n <= |questions|
  {
    if n == 0 then []
    else Trace(transport, baseModel, ragModel, questions, n - 1) + RowCalls(transport, n - 1, baseModel, ragModel, questions[n - 1])
  }

  /** One more row extends the trace by that row's calls. */
  lemma TraceStep(transport: Transport, baseModel: ModelConfig, ragModel: ModelConfig, questions: seq<string>, i: nat)
    requires i < |questions|
    ensures Trace(transport, baseModel, ragModel, questions, i + 1) ==
      Trace(transport, baseModel, ragModel, questions, i) + RowCalls(transport, i, baseModel, ragModel, questions[i])
  {
  }

  /** One more row extends the results by that row's result. */
  lemma EvaluateStep(transport: Transport, baseModel: ModelConfig, ragModel: ModelConfig, questions: seq<string>, i: nat)
    requires i < |questions|
    ensures var run := EvaluateRow(transport, i, baseModel, ragModel, questions[i]);
      Evaluate(transport, baseModel, ragModel, questions)[..i + 1] ==
        Evaluate(transport, baseModel, ragModel, questions)[..i] + [QuestionResult(i, questions[i], run.base, run.rag)]
  {
  }

  /** The calls of `trace` made for row `row`, in order. */
  function CallsOfRow(trace: seq<Call>, row: nat): seq<Call> {
    if |trace| == 0 then []
    else CallsOfRow(trace[..|trace| - 1], row) + (if trace[|trace| - 1].row == row then [trace[|trace| - 1]] else [])
  }

  lemma {:induction false} CallsOfRowAppend(a: seq<Call>, b: seq<Call>, row: nat)
    ensures CallsOfRow(a + b, row) == CallsOfRow(a, row) + CallsOfRow(b, row)
    decreases |b|
  {
    if |b| > 0 {
      assert (a + b)[..|a + b| - 1] == a + b[..|b| - 1];
      CallsOfRowAppend(a, b[..|b| - 1], row);
    } else {
      assert a + b == a;
    }
  }

  lemma CallsOfOneRow(calls: seq<Call>, row: nat, other: nat)
    requires forall i :: 0 <= i < |calls| ==> calls[i].row == row
    ensures CallsOfRow(calls, other) == if other == row then calls else []
    decreases |calls|
  {
    if |calls| > 0 {
      CallsOfOneRow(calls[..|calls| - 1], row, other);
      assert calls == calls[..|calls| - 1] + [calls[|calls| - 1]];
    }
  }

  /** The trace splits by row into the rows' own calls: every evaluated row
      appears with exactly the calls its evaluation made, later rows not at
      all. */
  lemma {:induction false} TraceByRow(transport: Transport, baseModel: ModelConfig, ragModel: ModelConfig, questions: seq<string>, n: nat, row: nat)
    requires n <= |questions|
    ensures CallsOfRow(Trace(transport, baseModel, ragModel, questions, n), row) ==
      if row < n then RowCalls(transport, row, baseModel, ragModel, questions[row]) else []
  {
    if n > 0 {
      var calls := RowCalls(transport, n - 1, baseModel, ragModel, questions[n - 1]);
      var before := Trace(transport, baseModel, ragModel, questions, n - 1);
      assert Trace(transport, baseModel, ragModel, questions, n) == before + calls;
      assert CallsOfRow(before + calls, row) == CallsOfRow(before, row) + (if row == n - 1 then calls else []) by {
        CallsOfRowExtend(before, calls, n - 1, row);
      }
      assert CallsOfRow(before, row) == if row < n - 1 then RowCalls(transport, row, baseModel, ragModel, questions[row]) else [] by {
        TraceByRow(transport, baseModel, ragModel, questions, n - 1, row);
      }
    }
  }

  /** Appending one row's calls adds them to that row's calls and to no other. */
  lemma CallsOfRowExtend(before: seq<Call>, calls: seq<Call>, last: nat, row: nat)
    requires forall i :: 0 <= i < |calls| ==> calls[i].row == last
    ensures CallsOfRow(before + calls, row) == CallsOfRow(before, row) + (if row == last then calls else [])
  {
    CallsOfRowAppend(before, calls, row);
    CallsOfOneRow(calls, last, row);
  }

  /** The rows are processed one after the other: row numbers never decrease
      along the trace. */
  lemma {:induction false} TraceIsSequential(transport: Transport, baseModel: ModelConfig, ragModel: ModelConfig, questions: seq<string>, n: nat)
    requires n <= |questions|
    ensures forall i :: 0 <= i < |Trace(transport, baseModel, ragModel, questions, n)| ==>
      Trace(transport, baseModel, ragModel, questions, n)[i].row < n
    ensures forall i, j :: 0 <= i < j < |Trace(transport, baseModel, ragModel, questions, n)| ==>
      Trace(transport, baseModel, ragModel, questions, n)[i].row <= Trace(transport, baseModel, ragModel, questions, n)[j].row
  {
    if n > 0 {
      var calls := RowCalls(transport, n - 1, baseModel, ragModel, questions[n - 1]);
      var before := Trace(transport, baseModel, ragModel, questions, n - 1);
      var trace := before + calls;
      assert Trace(transport, baseModel, ragModel, questions, n) == trace;
      TraceIsSequential(transport, baseModel, ragModel, questions, n - 1);
      forall i | 0 <= i < |trace|
        ensures trace[i].row < n
      {
        if i < |before| {
          assert trace[i] == before[i];
        } else {
          assert trace[i] == calls[i - |before|];
        }
      }
      forall i, j | 0 <= i < j < |trace|
        ensures trace[i].row <= trace[j].row
      {
        if j < |before| {
          assert trace[i] == before[i] && trace[j] == before[j];
        } else if i < |before| {
          assert trace[i] == before[i] && trace[j] == calls[j - |before|];
        } else {
          assert trace[i] == calls[i - |before|] && trace[j] == calls[j - |before|];
        }
      }
    }
  }

  /** A base failure on a row means the RAG model is never asked that row's
      question: the row's only call is the base call. */
  lemma RagSkippedAfterBaseFailure(transport: Transport, baseModel: ModelConfig, ragModel: ModelConfig, questions: seq<string>, row: nat)
    requires row < |questions|
    ensures var rowCalls := CallsOfRow(Trace(transport, baseModel, ragModel, questions, |questions|), row);
      && (transport(row, baseModel, questions[row]).Err? <==> rowCalls == [Call(row, baseModel, questions[row])])
      && (transport(row, baseModel, questions[row]).Ok? <==>
            rowCalls == [Call(row, baseModel, questions[row]), Call(row, ragModel, questions[row])])
  {
    TraceByRow(transport, baseModel, ragModel, questions, |questions|, row);
  }

  /** A row's result depends on nothing but its own question and the
      transport's answers on that row: whatever happens on the other rows,
      failures included, leaves it unchanged. */
  lemma RowIndependence(t1: Transport, t2: Transport, baseModel: ModelConfig, ragModel: ModelConfig, qs1: seq<string>, qs2: seq<string>, k: nat)
    requires k < |qs1| && k < |qs2| && qs1[k] == qs2[k]
    requires t1(k, baseModel, qs1[k]) == t2(k, baseModel, qs1[k])
    requires t1(k, ragModel, qs1[k]) == t2(k, ragModel, qs1[k])
    ensures Evaluate(t1, baseModel, ragModel, qs1)[k] == Evaluate(t2, baseModel, ragModel, qs2)[k]
  {
  }

  /** `process_questions_with_models`: one result per question, in order,
      whatever the number of failures. */
  method ProcessQuestionsWithModels(transport: Transport, baseModel: ModelConfig, ragModel: ModelConfig, questions: seq<string>)
    returns (results: seq<QuestionResult>, trace: seq<Call>)
    ensures |results| == |questions|
    ensures forall k :: 0 <= k < |results| ==> results[k].questionId == k && results[k].question == questions[k]
    ensures forall k :: 0 <= k < |results| ==>
      var run := EvaluateRow(transport, k, baseModel, ragModel, questions[k]);
      results[k].baseModelResponse == run.base && results[k].ragModelResponse == run.rag
    ensures results == Evaluate(transport, baseModel, ragModel, questions)
    ensures trace == Trace(transport, baseModel, ragModel, questions, |questions|)
  {
    results := [];
    trace := [];
    var i := 0;
    while i < |questions|
      invariant 0 <= i <= |questions|
      invariant results == Evaluate(transport, baseModel, ragModel, questions)[..i]
      invariant trace == Trace(transport, baseModel, ragModel, questions, i)
    {
      var run := EvaluateRow(transport, i, baseModel, ragModel, questions[i]);
      var result := QuestionResult(i, questions[i], run.base, run.rag);
      EvaluateStep(transport, baseModel, ragModel, questions, i);
      TraceStep(transport, baseModel, ragModel, questions, i);
      trace := trace + run.calls;
      results := results + [result];
      i := i + 1;
    }
  }

  /** A response as it is stored in a data frame: `None` becomes a missing value. */
  function ResponseCell(response: Option<string>): Cell {
    match response
    case Some(s) => Text(s)
    case None => Null
  }

  /** The dict the loop appends for one question. */
  function ToRecord(r: QuestionResult): (rec: Record)
    ensures Keys(rec) == ["question_id", QuestionColumn, BaseResponseColumn, RagResponseColumn]
  {
    assert |"question_id"| == 11 && |QuestionColumn| == 8;
    assert |BaseResponseColumn| == 19 && |RagResponseColumn| == 18;
    var rec := [ ("question_id", Int(r.questionId)),
      (QuestionColumn, Text(r.question)),
      (BaseResponseColumn, ResponseCell(r.baseModelResponse)),
      (RagResponseColumn, ResponseCell(r.ragModelResponse)) ];
    assert Keys(rec) == ["question_id", QuestionColumn, BaseResponseColumn, RagResponseColumn];
    rec
  }

  /** Looking a key up in the dict gives the id, the question and the two
      responses, `None` stored as a missing value. */
  lemma ToRecordLookups(r: QuestionResult)
    ensures Get(ToRecord(r), "question_id") == Int(r.questionId)
    ensures Get(ToRecord(r), QuestionColumn) == Text(r.question)
    ensures Get(ToRecord(r), BaseResponseColumn) == ResponseCell(r.baseModelResponse)
    ensures Get(ToRecord(r), RagResponseColumn) == ResponseCell(r.ragModelResponse)
  {
    var rec := ToRecord(r);
    assert rec[0].0 == "question_id" && rec[1].0 == QuestionColumn;
    assert rec[2].0 == BaseResponseColumn && rec[3].0 == RagResponseColumn;
    assert Keys(rec[..1]) == ["question_id"];
    assert Keys(rec[..2]) == ["question_id", QuestionColumn];
    assert Keys(rec[..3]) == ["question_id", QuestionColumn, BaseResponseColumn];
  }

  /** A frame the data-frame loop can walk: a frame with rows has a
      `question` column, and every cell in that column is text (a missing
      column makes `row['question']` raise, and a cell that is not text makes
      `question[:50]` raise, both outside the `try`). A frame with no rows
      needs neither, since the loop body never runs. */
  predicate HasTextQuestions(df: Table) {
    && WellFormed(df)
    && (|df.rows| > 0 ==> QuestionColumn in df.columns)
    && (QuestionColumn in df.columns ==> forall c :: c in Column(df, QuestionColumn) ==> c.Text?)
  }

  /** The questions of such a frame, top to bottom. */
  function QuestionsOf(df: Table): (questions: seq<string>)
    requires HasTextQuestions(df)
    ensures |questions| == |df.rows|
    ensures QuestionColumn !in df.columns ==> questions == []
    ensures QuestionColumn in df.columns ==>
      forall k :: 0 <= k < |df.rows| ==> Column(df, QuestionColumn)[k] == Text(questions[k])
  {
    if QuestionColumn !in df.columns then []
    else
      var column := Column(df, QuestionColumn);
      assert forall k :: 0 <= k < |column| ==> column[k] in column;
      seq(|column|, k requires 0 <= k < |column| => column[k].text)
  }

  /** The empty frame the loader returns on failure can be walked: it has no
      questions, so both response columns come out empty. */
  lemma EmptyFrameHasNoQuestions()
    ensures HasTextQuestions(EmptyTable) && QuestionsOf(EmptyTable) == []
    ensures forall df: Table :: WellFormed(df) && |df.rows| == 0 ==> HasTextQuestions(df) && QuestionsOf(df) == []
  {
  }

  /** `results_df['base_model_response'] = ...` followed by the same for
      `rag_model_response`. */
  function AddResponseColumns(df: Table, baseResponses: seq<Cell>, ragResponses: seq<Cell>): (out: Table)
    requires WellFormed(df) && |baseResponses| == |ragResponses| == |df.rows|
    ensures WellFormed(out) && |out.rows| == |df.rows|
    ensures out.columns == df.columns
      + (if BaseResponseColumn in df.columns then [] else [BaseResponseColumn])
      + (if RagResponseColumn in df.columns then [] else [RagResponseColumn])
    ensures forall k, j :: 0 <= k < |df.rows| && 0 <= j < |df.columns| && df.columns[j] != BaseResponseColumn && df.columns[j] != RagResponseColumn ==>
      out.rows[k][j] == df.rows[k][j]
    ensures Column(out, BaseResponseColumn) == baseResponses
    ensures Column(out, RagResponseColumn) == ragResponses
  {
    var withBase := SetColumn(df, BaseResponseColumn, baseResponses);
    var out := SetColumn(withBase, RagResponseColumn, ragResponses);
    AddResponseColumnsNames(df, withBase, out);
    SetColumnKeepsColumn(withBase, RagResponseColumn, ragResponses, BaseResponseColumn);
    out
  }

  lemma AddResponseColumnsNames(df: Table, withBase: Table, out: Table)
    requires withBase.columns == if BaseResponseColumn in df.columns then df.columns else df.columns + [BaseResponseColumn]
    requires out.columns == if RagResponseColumn in withBase.columns then withBase.columns else withBase.columns + [RagResponseColumn]
    ensures out.columns == df.columns
      + (if BaseResponseColumn in df.columns then [] else [BaseResponseColumn])
      + (if RagResponseColumn in df.columns then [] else [RagResponseColumn])
  {
    assert RagResponseColumn in withBase.columns <==> RagResponseColumn in df.columns;
  }

  /** The response columns of a list of results. */
  function BaseCells(results: seq<QuestionResult>): (cells: seq<Cell>)
    ensures |cells| == |results|
  {
    seq(|results|, k requires 0 <= k < |results| => ResponseCell(results[k].baseModelResponse))
  }

  function RagCells(results: seq<QuestionResult>): (cells: seq<Cell>)
    ensures |cells| == |results|
  {
    seq(|results|, k requires 0 <= k < |results| => ResponseCell(results[k].ragModelResponse))
  }

  lemma ResponseCellsAppend(results: seq<QuestionResult>, r: QuestionResult)
    ensures BaseCells(results + [r]) == BaseCells(results) + [ResponseCell(r.baseModelResponse)]
    ensures RagCells(results + [r]) == RagCells(results) + [ResponseCell(r.ragModelResponse)]
  {
  }

  /** The loop of `process_dataframe_with_models`: the two response lists
      grow by exactly one entry per row, and hold what the list loop records. */
  method CollectResponses(transport: Transport, baseModel: ModelConfig, ragModel: ModelConfig, questions: seq<string>)
    returns (baseResponses: seq<Cell>, ragResponses: seq<Cell>, trace: seq<Call>)
    ensures |baseResponses| == |ragResponses| == |questions|
    ensures baseResponses == BaseCells(Evaluate(transport, baseModel, ragModel, questions))
    ensures ragResponses == RagCells(Evaluate(transport, baseModel, ragModel, questions))
    ensures trace == Trace(transport, baseModel, ragModel, questions, |questions|)
  {
    ghost var results: seq<QuestionResult> := [];
    baseResponses, ragResponses := [], [];
    trace := [];
    var i := 0;
    while i < |questions|
      invariant 0 <= i <= |questions|
      invariant results == Evaluate(transport, baseModel, ragModel, questions)[..i]
      invariant baseResponses == BaseCells(results) && ragResponses == RagCells(results)
      invariant trace == Trace(transport, baseModel, ragModel, questions, i)
    {
      var run := EvaluateRow(transport, i, baseModel, ragModel, questions[i]);
      EvaluateStep(transport, baseModel, ragModel, questions, i);
      TraceStep(transport, baseModel, ragModel, questions, i);
      ResponseCellsAppend(results, QuestionResult(i, questions[i], run.base, run.rag));
      results := results + [QuestionResult(i, questions[i], run.base, run.rag)];
      baseResponses := baseResponses + [ResponseCell(run.base)];
      ragResponses := ragResponses + [ResponseCell(run.rag)];
      trace := trace + run.calls;
      i := i + 1;
    }
  }

  /** `process_dataframe_with_models`: the frame with its columns kept and two
      response columns set, each holding exactly one entry per row; the
      responses are the ones the list loop records for the same questions. */
  method ProcessDataFrameWithModels(transport: Transport, baseModel: ModelConfig, ragModel: ModelConfig, df: Table)
    returns (out: Table, trace: seq<Call>)
    requires HasTextQuestions(df)
    ensures WellFormed(out) && |out.rows| == |df.rows|
    ensures out.columns == df.columns
      + (if BaseResponseColumn in df.columns then [] else [BaseResponseColumn])
      + (if RagResponseColumn in df.columns then [] else [RagResponseColumn])
    ensures forall k, j :: 0 <= k < |df.rows| && 0 <= j < |df.columns| && df.columns[j] != BaseResponseColumn && df.columns[j] != RagResponseColumn ==>
      out.rows[k][j] == df.rows[k][j]
    ensures Column(out, BaseResponseColumn) == BaseCells(Evaluate(transport, baseModel, ragModel, QuestionsOf(df)))
    ensures Column(out, RagResponseColumn) == RagCells(Evaluate(transport, baseModel, ragModel, QuestionsOf(df)))
    ensures trace == Trace(transport, baseModel, ragModel, QuestionsOf(df), |df.rows|)
  {
    if QuestionColumn in df.columns {
      var baseResponses, ragResponses;
      baseResponses, ragResponses, trace := CollectResponses(transport, baseModel, ragModel, QuestionsOf(df));
      out := AddResponseColumns(df, baseResponses, ragResponses);
    } else {
      // No `question` column means no rows: the loop never runs.
      out := AddResponseColumns(df, [], []);
      trace := [];
    }
  }
}
