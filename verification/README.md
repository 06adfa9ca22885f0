# LLM evaluation harness: a Dafny model

This project models the core of a batch evaluation harness. The harness loads a few questions from a CSV dataset and asks each one to two LLM deployments: a "base" model and a retrieval-augmented ("RAG") model. It records one result per question, writes the results to a spreadsheet and prints a success/failure summary.

The model has one module per concern:

- `Outcomes` (`outcomes.dfy`): `Option` stands for a Python value that may be `None`. `Outcome` (`Ok(value)` or `Err(msg)`) stands for a call that returns or raises.
- `Strings` (`strings.dfy`): `startswith`, the substring test `needle in s`, and ASCII `lower()`.
- `Tables` (`tables.dfy`): the part of pandas the harness uses, over an abstract table of column names and rows of cells. This covers `head(n)`, `df[name]`, `df[name] = values`, `df[[...]]` and `pd.DataFrame(list_of_dicts)`.
- `InputProcessing` (`input_processing.dfy`): the two loaders. They take the outcome of reading the CSV file as a parameter.
- `ModelProcessing` (`model_processing.dfy`): the evaluation loop in its list form and its data-frame form. The LLM transport `query_llm` is a parameter of type `Transport`. Given the row being evaluated, a model configuration and a question, it returns a reply or an exception message. Each loop also returns a call trace, so the model can state which calls were made.
- `ResultsHandler` (`results_handler.dfy`): normalising results to a frame, column widths, column names, saving with every failure turned into `None`, and the summary counts.
- `Pipeline` (`pipeline.dfy`): what happens when the loop's output is saved and summarised, including the two-question scenario.

Both calls of a row sit inside one `try` block, and the model follows the code here:

- a failed base call means the RAG call is never made;
- a failed RAG call discards a base answer that succeeded;
- both response fields get the same `ERROR: <message>` text.

A different reading is modelled as `IndependentRow`: one error handler per call, so the two fields are recorded independently. `SharedHandlerVersusIndependent` states exactly where that reading and the code agree.

## Model

| member | source | states |
|---|---|---|
| `InputProcessing.ReadQuestionsFromData` | input_processing.py:24-38 | Returns at most `n` questions. When the file has a `question` column, the result has exactly `min(n, rows)` entries and entry `k` is row `k`'s question cell. An unreadable file or a missing column gives `[]`. |
| `InputProcessing.ReadFullData` | input_processing.py:60-76 | Returns a well-formed frame with at most `n` rows. When the file has a `question` column, the frame has all of the file's columns and its first `min(n, rows)` rows, unchanged. An unreadable file or a missing column gives the empty frame. |
| `InputProcessing.QuestionsAreFullDataColumn` | input_processing.py:27-67 | The question list equals the `question` column of the full-row subset. Both loaders come back empty in exactly the same cases. |
| `InputProcessing.ReadQuestionsPrefix` | input_processing.py:31 | Asking for fewer questions gives a prefix of asking for more. |
| `Tables.Head` | input_processing.py:67 | `head(n)` keeps the columns and takes the first `min(n, rows)` rows in source order. |
| `ModelProcessing.ErrorMarker` | model_processing.py:64-65 | The error text is exactly `ERROR: ` (tag, colon, space) followed by the unchanged exception message. It starts with the `ERROR:` tag the summary tests for. |
| `ModelProcessing.ExecuteSingleQuery` | model_processing.py:15-16 | Fails exactly when the transport raises, carrying the same message. On success it returns the reply's `response` field, or `None` when the reply has none; a missing field counts as a success. |
| `ModelProcessing.EvaluateRow` | model_processing.py:38-67 | The RAG call is made only when the base call returned. A base failure puts `ERROR: <base message>` in both fields. A RAG failure after a base success puts `ERROR: <rag message>` in both fields and drops the base answer. When both calls return, the fields are the two responses. |
| `ModelProcessing.SharedHandlerVersusIndependent` | model_processing.py:38-67 | Compared with per-call error handling: the calls agree exactly when the base call succeeds. The RAG field agrees whenever the base call succeeds. The base field agrees unless the RAG call fails after a base success. |
| `ModelProcessing.ProcessQuestionsWithModels` | model_processing.py:31-69 | Returns one result per question whatever fails. Result `k` has `question_id == k`, the `k`-th question, and row `k`'s two response fields. The trace is the calls of all rows in order. |
| `ModelProcessing.TraceByRow` | model_processing.py:35-67 | Split by row, the trace holds exactly each evaluated row's own calls, and nothing for rows not yet reached. |
| `ModelProcessing.TraceIsSequential` | model_processing.py:35-45 | Rows are processed one after another: row numbers never decrease along the trace, and only evaluated rows appear. |
| `ModelProcessing.RagSkippedAfterBaseFailure` | model_processing.py:38-45 | On a row whose base call fails, the base call is the only call. On a row whose base call succeeds, the calls are base then RAG. |
| `ModelProcessing.RowIndependence` | model_processing.py:58-67 | A row's result depends only on its question and the transport's answers on that row. Failures on other rows do not change it. |
| `ModelProcessing.CollectResponses` | model_processing.py:88-113 | Each response list grows by exactly one entry per row. The lists hold the same responses the list-form loop records for those questions. |
| `ModelProcessing.AddResponseColumns` | model_processing.py:115-117 | Assigning the two response columns overwrites an existing column of that name in place, and appends a new one otherwise. It leaves every other cell unchanged and stores exactly the given lists. |
| `ModelProcessing.ToRecord` | model_processing.py:48-53 | The dict for one question has the keys `question_id`, `question`, `base_model_response` and `rag_model_response`, in that order. |
| `ModelProcessing.ToRecordLookups` | model_processing.py:48-53 | Looking up each key of that dict gives the id, the question and the two responses, with `None` stored as a missing value. |
| `ModelProcessing.EmptyFrameHasNoQuestions` | model_processing.py:91 | A frame with no rows, such as the loader's empty failure frame, can be walked and has no questions, so the loop runs zero times. |
| `ModelProcessing.ProcessDataFrameWithModels` | model_processing.py:84-119 | Accepts every frame the source walks without raising, including one with no rows and no `question` column. The frame keeps its rows and original cells. It gains the two response columns (length `len(df)`), which equal the list-form loop's responses. The trace is the same as the list loop's. |
| `Tables.SetColumn` | model_processing.py:116-117 | `df[name] = values` keeps the frame well formed. The named column becomes `values` and no other column changes. |
| `Tables.FromRecords` | results_handler.py:23 | `pd.DataFrame(dicts)` is well formed and has one row per dict. Its columns are the union of the dicts' keys. Each cell is the dict's value for its column, or missing when the dict lacks the key. |
| `Tables.UnionKeys` | results_handler.py:23 | The frame's columns are distinct, and a name is a column exactly when some dict has it as a key. |
| `Tables.UnionKeysOrder` | results_handler.py:23 | The columns come in order of first appearance. Of two columns, the earlier one first occurs in an earlier dict, or earlier among the keys of the same dict. With distinctness and membership, this fixes the column order exactly. |
| `Tables.FirstDict` | results_handler.py:23 | Gives the index of the first dict holding a key (or the list length when none does): that dict has the key and no earlier dict does. |
| `Tables.AddNewOrder` | results_handler.py:23 | The columns a new dict contributes are its keys not seen before, in the dict's own key order. |
| `Tables.Column` | input_processing.py:31 | `df[name]` has one cell per row, and cell `k` is row `k`'s cell in the named column. |
| `Tables.Get` | results_handler.py:23 | A dict's value for a key (the first entry with that key); a missing key reads as a missing value. |
| `Tables.Select` | results_handler.py:26 | `df[names]` succeeds exactly when every name is a column. It then has exactly those columns in that order, with each cell taken from the named column. |
| `ResultsHandler.ResultsTable` | results_handler.py:18-26 | A frame is written as given. A list with a `question_id` key is cut down to `question_id, question, base_model_response, rag_model_response` in that order, or fails when one of these is missing. A list without that key is written as built. |
| `ResultsHandler.ResultsTableOfResultKeys` | results_handler.py:22-26 | A list of dicts whose keys are exactly the four result columns is saved as those columns, with every cell read from the matching dict. |
| `ResultsHandler.SelectResultColumns` | results_handler.py:25-26 | After the cut, row `k` holds dict `k`'s values under the four result keys. |
| `ResultsHandler.ColumnWidth` | results_handler.py:50-57 | `qid` and `question_id` get 10. Exactly `question` gets 60. Any other column whose lower-cased name contains `response` gets 80, and all remaining columns get 30. Each width is stated as an if-and-only-if, with "contains" defined by an occurrence position. |
| `Strings.StartsWithChars` | results_handler.py:87-92 | `StartsWith` models `s.startswith(prefix)`. It holds exactly when the prefix fits in `s` and matches `s` character by character, which is the same as an occurrence at position 0. |
| `Strings.Lower` | results_handler.py:54 | `lower()` keeps the length and changes only ASCII capitals, each to its lower-case letter (code point + 32). No capital remains. |
| `Strings.Contains` | results_handler.py:54 | The left-to-right scan finds the needle exactly when it occurs at some position. |
| `ResultsHandler.ColumnWidthIgnoresCase` | results_handler.py:54 | For a name that neither is nor lower-cases to one of the three exact names, the width depends only on the lower-cased name. |
| `ResultsHandler.ResultColumnWidths` | results_handler.py:50-57 | The four list-form columns get widths 10, 60, 80 and 80. |
| `ResultsHandler.ColumnLetterAsWritten` | results_handler.py:47-48 | `chr(64 + i)` is a capital letter exactly when `i <= 26`. |
| `ResultsHandler.AsWrittenInvalidBeyond26` | results_handler.py:48 | From the 27th column on, the computed letter is not a column name; the 27th column gets `[` instead of `AA`. |
| `ResultsHandler.AsWrittenAgreesUpTo26` | results_handler.py:48 | For columns 1 to 26 the computed letter is the correct column name. |
| `ResultsHandler.ColumnName` | results_handler.py:47-48 | The corrected conversion always yields a spreadsheet column name (capital letters, at least one). |
| `ResultsHandler.ColumnIndexOfName` | results_handler.py:47-48 | Round trip: the name of column `i` reads back as `i`. |
| `ResultsHandler.ColumnNameOfIndex` | results_handler.py:47-48 | Round trip: every column name is the name of the position it reads as. |
| `ResultsHandler.ColumnWidthsAsWritten` | results_handler.py:47-57 | Gives the width settings as the source keys them. There is one per column, with width `ColumnWidth`, and setting `j`'s key is a column name exactly when `j < 26`. |
| `ResultsHandler.AsWrittenWidthsAgreeUpTo26` | results_handler.py:47-57 | On a sheet of at most 26 columns, the source's width settings are exactly the corrected ones. |
| `ResultsHandler.ColumnWidths` | results_handler.py:47-57 | There is one width setting per column. Setting `j` is keyed by a valid name that reads back as position `j + 1`, no two settings share a name, and each width is its column's `ColumnWidth`. |
| `ResultsHandler.SaveResultsToExcel` | results_handler.py:17-69 | Returns a file exactly when the normalisation succeeds and the write raises nothing; every failure gives `None`. A saved sheet is named `LLM_Evaluation_Results`, holds the normalised frame (a frame exactly as given, a list with one row per dict) and has one width per column. |
| `ResultsHandler.CellText` | results_handler.py:87-88 | `str(r)`: text is kept as it is. An integer or a missing value prints as something too short for the tag, or starting with a sign or a digit. |
| `ResultsHandler.ShowsAsErrorIsTextTest` | results_handler.py:87-92 | `ShowsAsError`, the failure test every count uses, holds for a value exactly when `str(r).startswith('ERROR:')`. Only text can start with the tag, since integers and `None` print otherwise. |
| `ResultsHandler.CountSuccesses` | results_handler.py:87-92 | The count is at most the number of rows. It equals that number exactly when no value starts with `ERROR:`, and is zero exactly when every value does. |
| `ResultsHandler.SuccessesPlusFailures` | results_handler.py:86-96 | The successes and the independently counted failures add up to the number of rows. |
| `ResultsHandler.PrintEvaluationSummary` | results_handler.py:80-98 | A falsy output file (None or empty) gives only the failure notice, with no counts. Otherwise it reports the row count and, per model, the rows whose value does not start with `ERROR:`, both bounded by the total. |
| `ResultsHandler.MissingResponseCountsAsSuccess` | results_handler.py:87 | In the frame form, a `None` response counts as a success. |
| `ResultsHandler.SummaryBranchesAgree` | results_handler.py:85-92 | For a non-empty list with string responses, the list branch and the frame built from the list give the same summary. |
| `Pipeline.ErrorMarkersCountAsFailures` | results_handler.py:91-92 | On a row where a call raised, the summary counts both response columns as failures. |
| `Pipeline.LoopOutputSummarizable` | results_handler.py:91-92 | The list-form summary can read the loop's output exactly when every answered call on a fully answered row had a `response` field. |
| `Pipeline.CountSuccessesBound` | results_handler.py:87-92 | If every flagged value shows an error, at most the unflagged values count as successes. Exactly those count when none of them shows an error. |
| `Pipeline.SummaryOfLoopOutput` | results_handler.py:89-96 | For the loop's list, the total is the number of questions. Each model's successes are at most the rows with no failed call, and exactly that many when no successful answer starts with `ERROR:`. |
| `Pipeline.SavedLoopOutput` | results_handler.py:22-26 | Saving the loop's non-empty list writes exactly the four result columns. Row `k` holds `k`, the question and the two responses. |
| `Pipeline.SavedResults` | results_handler.py:22-26 | Saving any non-empty list of the loop's dicts writes the four result columns. Each row holds its dict's id, question and two responses. |
| `Pipeline.UnionOfLoopRecords` | results_handler.py:23 | The loop's dicts all have the four result keys in order, so the frame built from them has exactly those columns. |
| `Pipeline.TwoQuestionScenario` | model_processing.py:31-69 | Two questions, both models answering the first and the service failing on the second: two rows, the second with `ERROR: timeout` in both fields, and a summary of 1/2 for each model. |

## Left out

- `query_llm` and `ModelConfig` come from an external client library that this model does not include. The transport is a parameter. The loop hands the whole configuration object to `query_llm`. The model's `ModelConfig` keeps the identifying fields (token, URL, project, name, provider). The retrieval parameter group is folded into the transport's behaviour.
- The transport is indexed by row, configuration and question. If the base and RAG configurations were equal, the model would give both calls on a row the same answer.
- `create_model_configs` only builds two constant configuration objects, so there is nothing to state about it.
- `main.py` is a one-off script making a single live call, with settings from a `config` module that is not part of this model.
- Reading the CSV file, building file paths and `os.makedirs` are file-system work. The loaders receive the outcome of the read. The save receives the output path and whether the write raised.
- The workbook encoding, cell alignment and text wrapping, and every `print` are formatting and output only.
- `head(n)` with negative `n`: the loaders take `n >= 0`.
- Cells are text, integers or missing. Floating-point cells are not modelled: a numeric column never begins with `ERROR:`, so no count depends on them.
- Responses are strings or `None`. A transport that returns a non-string `response` value is not modelled.
- `ProcessQuestionsWithModels`: takes its questions as strings. In the source, `question[:50]` runs outside the `try`, so a question that is not text makes the whole call raise and return no results. `ReadQuestionsFromData` can yield such cells (integers, missing values). The model does not cover that crash.
- The default arguments are recorded as `InputProcessing.DefaultQuestionCount` (20) and `ResultsHandler.DefaultOutputFilename` (`llm_evaluation_results.xlsx`). The model's operations take both values explicitly.
- `ProcessDataFrameWithModels` requires that a frame with rows has a `question` column, and that every cell in that column is text. Otherwise the source raises outside its `try`: `row['question']` raises for a missing column, and `question[:50]` for a cell that is not text. A frame with no rows is accepted whatever its columns, as in the source, where the loop never runs. This includes the loader's empty failure frame, which comes back with two empty response columns. The pandas index labels that `iterrows` yields are used only in progress messages.
- `Lower`: lowers only ASCII capitals and keeps the length. Python's `str.lower` also maps other capitals, and can lengthen a string (`'İ'.lower()` has two characters). The only use is the `'response' in column.lower()` test (results_handler.py:54). Under Unicode case mapping, the only non-ASCII capitals that lower to ASCII letters are `İ` (to `i` plus a combining dot) and the Kelvin sign (to `k`). Neither letter is in `response`, so the gap cannot change a width.
- `ColumnWidth`: inherits the ASCII-only `Lower`.
- `ColumnLetterAsWritten`: requires `64 + i` to be below the surrogate range, because Dafny characters cannot hold surrogates. No sheet has that many columns.
- `SaveResultsToExcel`: the output path is a parameter rather than `os.path.join(<module dir>, 'Output', filename)`. The saved sheet's width settings use the corrected column names (`ColumnWidths`). The source's own keys are modelled by `ColumnWidthsAsWritten`. What the workbook library does with a key such as `[` is not modelled. It may ignore the key, or it may raise, which would make the save return `None`.
- `PrintEvaluationSummary`: requires the inputs the counting code can read (`CanSummarize`). A list entry lacking a response key, or holding `None`, makes the source raise, because the summary has no error handler.

## Findings

| source | as written | input that shows it | evidently intended | confidence | as-written member | corrected member |
|---|---|---|---|---|---|---|
| results_handler.py:47-48 | the column letter is `chr(64 + col_idx)` | a frame with 27 or more columns: column 27 gets `[` instead of `AA`, so its width is set under a key that names no column | the spreadsheet column name of the position, as the comment "Convert to Excel column letter" says | high for the computed value. Its effect in the workbook is not modelled: openpyxl may ignore or reject a `[` key, and a rejection would make the save return `None`. Not executed. | `ResultsHandler.ColumnLetterAsWritten` and `ResultsHandler.ColumnWidthsAsWritten` (exhibited by `ResultsHandler.AsWrittenInvalidBeyond26`) | `ResultsHandler.ColumnName` (round trips `ResultsHandler.ColumnIndexOfName` and `ResultsHandler.ColumnNameOfIndex`, used by `ResultsHandler.ColumnWidths`) |
