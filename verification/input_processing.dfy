/** The two dataset loaders. Reading the CSV file is left to the caller: the
    loaders receive what `pd.read_csv` produced, a frame or the message of the
    exception it raised. */
module InputProcessing {
  import opened Outcomes
  import opened Tables

  /** The column every dataset must have. */
  const QuestionColumn := "question"

  /** The number of questions (and rows) both loaders return by default. */
  const DefaultQuestionCount: nat := 20

  /** `read_questions_from_data(num_questions)`: the first `num_questions`
      cells of the `question` column, or `[]` when the file could not be read
      or has no such column (the `ValueError` raised for the missing column is
      caught by the same handler). */
  function ReadQuestionsFromData(source: Outcome<Table>, numQuestions: nat): (questions: seq<Cell>)
    requires source.Ok? ==> WellFormed(source.value)
    ensures |questions| <= numQuestions
    ensures source.Err? ==> questions == []
    ensures source.Ok? && QuestionColumn !in source.value.columns ==> questions == []
    ensures source.Ok? && QuestionColumn in source.value.columns ==>
      && |questions| == Min(numQuestions, |source.value.rows|)
      && forall k, j :: 0 <= k < |questions| && 0 <= j < |source.value.columns| && source.value.columns[j] == QuestionColumn ==>
           questions[k] == source.value.rows[k][j]
  {
    match source
    case Err(_) => []
    case Ok(df) =>
      if QuestionColumn !in df.columns then []
      else
        var column := Column(df, QuestionColumn);
        column[..Min(numQuestions, |column|)]
  }

  /** `read_full_data(num_questions)`: the first `num_questions` rows with all
      their columns, or an empty frame when the file could not be read or has
      no `question` column. */
  function ReadFullData(source: Outcome<Table>, numQuestions: nat): (t: Table)
    requires source.Ok? ==> WellFormed(source.value)
    ensures WellFormed(t)
    ensures |t.rows| <= numQuestions
    ensures source.Err? ==> t == EmptyTable
    ensures source.Ok? && QuestionColumn !in source.value.columns ==> t == EmptyTable
    ensures source.Ok? && QuestionColumn in source.value.columns ==>
      && t.columns == source.value.columns
      && |t.rows| == Min(numQuestions, |source.value.rows|)
      && t.rows == source.value.rows[..|t.rows|]
  {
    match source
    case Err(_) => EmptyTable
    case Ok(df) =>
      if QuestionColumn !in df.columns then EmptyTable
      else Head(df, numQuestions)
  }

  /** The two loaders agree: the question list is the `question` column of the
      full-row subset, and both come back empty on the same failures. */
  lemma QuestionsAreFullDataColumn(source: Outcome<Table>, numQuestions: nat)
    requires source.Ok? ==> WellFormed(source.value)
    ensures source.Ok? && QuestionColumn in source.value.columns ==>
      ReadQuestionsFromData(source, numQuestions) == Column(ReadFullData(source, numQuestions), QuestionColumn)
    ensures !(source.Ok? && QuestionColumn in source.value.columns) <==>
      ReadFullData(source, numQuestions) == EmptyTable && ReadQuestionsFromData(source, numQuestions) == []
  {
    if source.Ok? && QuestionColumn in source.value.columns {
      var df := source.value;
      var questions := ReadQuestionsFromData(source, numQuestions);
      var subset := ReadFullData(source, numQuestions);
      var j := IndexOf(df.columns, QuestionColumn).value;
      var column := Column(subset, QuestionColumn);
      assert |questions| == |column|;
      forall k | 0 <= k < |questions|
        ensures questions[k] == column[k]
      {
        assert subset.rows[k] == df.rows[k];
      }
      assert subset.columns != [];
    }
  }

  /** Asking for fewer questions gives a prefix of asking for more. */
  lemma ReadQuestionsPrefix(source: Outcome<Table>, m: nat, n: nat)
    requires source.Ok? ==> WellFormed(source.value)
    requires m <= n
    ensures ReadQuestionsFromData(source, m) == ReadQuestionsFromData(source, n)[..|ReadQuestionsFromData(source, m)|]
  {
  }
}
