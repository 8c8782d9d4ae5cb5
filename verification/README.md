# DIY RAG deployment: query-time adapters in Dafny

This project models the adapter layer around the retrieval-augmented
generation chain of the DIY RAG deployment (`deployment_diy_rag/utils.py` and
`deployment_diy_rag/custom.py`), and proves what that layer promises. The
LangChain chain is an opaque function: given an input question and a chat
history, it returns an answer and context documents, or it raises.

The layer has five parts:

- **History adapters.**
  - `convert_messages_to_chat_history` turns OpenAI messages into LangChain turns. It drops system messages and strips the trailing user question.
  - `parse_chat_history` maps serialized history records to turns.
- **Citation extraction.** `process_citations` projects every context document to `content`/`source`/`page`.
- **Per-row records and their merge.**
  - `create_result_dict` builds `{resultText: [answer], CITATION_CONTENT_i: [...], ...}`.
  - `merge_result_dicts` concatenates the records column by column.
- **Completion formatting.** `create_chat_completion` produces an OpenAI `ChatCompletion` with a `citations` extension.
- **Entry points.**
  - `score` is the batch loop, with per-row failure isolation through `process_single_row`.
  - `chat` is the OpenAI-compatible hook.

Modules:

- `Wrappers` (wrappers.dfy): `Option` and `Result`.
- `Schema` (schema.dfy): the column names `promptText` and `resultText`.
- `PyDict` (pydict.dfy): an insertion-ordered string-keyed dict, as Python's `dict` is.
- `Decimal` (decimal.dfy): `str()` of a natural number, used in citation column names.
- `Utils` (utils.dfy): everything in `utils.py`.
- `Custom` (custom.dfy): `score` and `chat` from `custom.py`.

How the source maps onto Dafny:

- Code that loops and mutates is a method, proved equal to a recursive specification function.
  - `ConvertMessagesToChatHistory`, `ProcessCitations`, `CreateResultDict`, `MergeResultDicts` and `Score` are such methods.
  - For `ConvertMessagesToChatHistory`, `CreateResultDict`, `MergeResultDicts` and `Score` the specification function is defined from the back, so the loop invariant is "the function applied to the prefix read so far".
  - `ProcessCitations` is specified element by element (`Citations` is a sequence comprehension), and its loop invariant says the same of the citations built so far.
  - The properties are lemmas about those functions.
- Comprehension-style code is a function: `ParseChatHistory`, `CreateChatCompletion` and `Chat`.
- Python exceptions are `Err` values of the `Exception` datatype, raised in the order the code would raise them.
  - A hard lookup `d[k]` on a missing key gives `KeyError(k)`.
  - pydantic rejections give `ValidationError`.
- Several things become parameters:
  - `json.loads` becomes `loads`.
  - `traceback.format_exc()` becomes `formatExc`.
  - `time.time()` becomes `now`.
  - The chain becomes a total function `ChainInput -> Result<ChainOutput, Exception>`.

Two behaviours of the code that are easy to miss:

- Ragged merged columns make `pd.DataFrame` raise `ValueError`, so `score` fails for the whole batch (see Findings).
- `chat` without a `model` parameter is rejected by the `ChatCompletion` validation.

## Model

| member | source | states |
|---|---|---|
| Utils.DropPendingQuestion | deployment_diy_rag/utils.py:90-93 | the result is a prefix of the turns, at most one shorter, and shorter exactly when the last turn is a human turn |
| Utils.ConvertMessagesToChatHistory | deployment_diy_rag/utils.py:75-93 | the loop returns the converted history (retained turns minus a trailing question), or the `KeyError` the first malformed message raises |
| Utils.RetainedTurnsErrPropagates | deployment_diy_rag/utils.py:82-88 | once a message raises, the conversion of any longer list raises the same exception |
| Utils.RetainTurn | deployment_diy_rag/utils.py:83-88 | one message converts iff it has a role, plus content when the role is user or assistant; a missing role or content raises `KeyError` for that key; only user and assistant messages give a turn, Human exactly for user, carrying the message's content |
| Utils.RetainedTurnsKeepsConversation | deployment_diy_rag/utils.py:82-88 | conversion succeeds iff every message has a role, plus content when the role is user or assistant; it then yields, in order, exactly one turn per user message (Human) and per assistant message (AI) |
| Utils.RetainedTurnsAppend | deployment_diy_rag/utils.py:82-88 | converting a concatenation concatenates the conversions; the first exception in message order wins |
| Utils.SystemMessageDropped | deployment_diy_rag/utils.py:83-84 | inserting a system (or unknown-role) message anywhere changes neither the retained turns nor the history |
| Utils.PendingQuestionExcluded | deployment_diy_rag/utils.py:90-93 | for any H, `H ++ [user q]` converts to H's retained turns; if those are empty or end in an AI turn, that is H's own history |
| Utils.OnlyLastQuestionExcluded | deployment_diy_rag/utils.py:90-93 | of two trailing questions only the last is stripped; the earlier stays as a Human turn |
| Utils.ParseTurn | deployment_diy_rag/utils.py:171 | a record parses iff it has a role and a content; a missing role raises `KeyError`, a missing content fails validation; the turn keeps the content and is Human exactly for role "user" |
| Utils.ParseRecords | deployment_diy_rag/utils.py:170-173 | succeeds iff every record has a role and a content; then one turn per record in order, Human exactly for role "user" and AI for every other role, system included |
| Utils.ParseChatHistory | deployment_diy_rag/utils.py:164-173 | empty input gives `[]`; undecodable input gives a decode error; otherwise one turn per record, as ParseRecords states |
| Utils.ParserAgreesWithConversion | deployment_diy_rag/utils.py:164-173 | on user/assistant records with content, the parser yields the same turns as the message conversion retains |
| Utils.ProcessCitations | deployment_diy_rag/utils.py:123-134 | one citation per context document, in order; a missing context gives `[]`; a missing source or page becomes `""` |
| Utils.CitationKeysInjective | deployment_diy_rag/utils.py:116-118 | `CITATION_CONTENT_i`, `CITATION_SOURCE_i` and `CITATION_PAGE_i` are pairwise distinct, and distinct indexes give distinct names |
| Utils.TargetIsNotACitationKey | docsassist/schema.py:23 | the target column name `resultText` is never a citation column name |
| Utils.ResultDictCells | deployment_diy_rag/utils.py:113-118 | the record always has the target column, and every column holds exactly one value |
| Utils.ResultDictCitation | deployment_diy_rag/utils.py:115-118 | citation i's content, source and page are stored as one-element lists under the three index-i column names |
| Utils.ResultDictKeys | deployment_diy_rag/utils.py:113-120 | the keys are exactly the target followed by the three citation columns of each index in order, and the target holds `[answer]` |
| Utils.CreateResultDict | deployment_diy_rag/utils.py:109-120 | the loop builds the record above: target present, singleton cells, per-citation columns, and the exact key list |
| Utils.ExtendAllKeys | deployment_diy_rag/utils.py:101-104 | the inner loop appends each newly met key once, after the keys already present |
| Utils.ExtendAllValues | deployment_diy_rag/utils.py:101-104 | the inner loop extends a key's list by the result's values exactly when the result has the key, and leaves other lists alone |
| Utils.MergedKeys | deployment_diy_rag/utils.py:98-106 | merged keys are all results' keys in order of first appearance |
| Utils.MergedColumn | deployment_diy_rag/utils.py:98-106 | a key is merged iff some result has it; its list is the in-order concatenation of its lists over only the results that have it |
| Utils.MergeResultDicts | deployment_diy_rag/utils.py:96-106 | the nested loops return the merge above: first-appearance key order and per-key concatenation |
| Utils.CountWithAll | deployment_diy_rag/utils.py:101-104 | a key reaches one entry per result iff every result has it |
| Utils.ColumnLength | deployment_diy_rag/utils.py:101-104 | with one-value cells, a merged column has one entry per result that has the key (ragged otherwise) |
| Utils.ErrorRow | deployment_diy_rag/utils.py:160-161 | the failure record has the single key `target`, holding the one trace string |
| Utils.RowResultCells | deployment_diy_rag/utils.py:144-161 | every per-row record, failed or not, has the target column and one value per column |
| Utils.RowOutcome | deployment_diy_rag/utils.py:144-157 | the `try` block raises the chain's own exception, or `KeyError("answer")` when the output has no answer; otherwise it yields the answer and one citation per context document, in order, with that document's content |
| Utils.ProcessSingleRow | deployment_diy_rag/utils.py:137-161 | a chain exception or a missing answer gives exactly `{target: [trace]}`; otherwise the record is `create_result_dict(answer, process_citations(output))` |
| Utils.References | deployment_diy_rag/utils.py:62-69 | succeeds iff every document has a `source`, otherwise `KeyError("source")`; one `{content, link, metadata}` per document in order, with link = source |
| Utils.CreateChatCompletion | deployment_diy_rag/utils.py:37-72 | one choice (index 0, `"stop"`, role assistant, content = response verbatim); model, `"chat.completion"`, no fingerprint; created = the given time else the clock; citations as References; a missing model is a validation error |
| Utils.CompletionCitationsAgree | deployment_diy_rag/utils.py:62-69 | completion citations and `process_citations` list the same documents in order: same content, and link = the reported source |
| Custom.RowInput | deployment_diy_rag/custom.py:148-149 | a row without the prompt column raises `KeyError`; otherwise the history's parse error is raised, or the query is the row's prompt with the parsed history; a row without `messages` gets an empty history |
| Custom.RowInputs | deployment_diy_rag/custom.py:147-149 | a batch read without error has one query per row |
| Custom.DataFrame | deployment_diy_rag/custom.py:156 | the constructor succeeds iff all columns have the same length; the table then holds the merged columns unchanged, and otherwise it raises `ValueError("All arrays must be of the same length")` |
| Custom.RowInputsErrPropagates | deployment_diy_rag/custom.py:147-149 | once a row's prompt or history raises, the whole batch raises that exception |
| Custom.RowInputsOk | deployment_diy_rag/custom.py:147-149 | the batch is read iff every row has a prompt and a parseable history; then query i is row i's |
| Custom.RowInputsFirstError | deployment_diy_rag/custom.py:147-149 | a failed batch fails with the exception of its first unreadable row |
| Custom.ChainFailureIsolated | deployment_diy_rag/custom.py:147-153 | with readable rows, a chain failure in row i stops nothing: one record per row, and row i's record is the error record with that exception's trace |
| Custom.MissingMessagesGiveEmptyHistory | deployment_diy_rag/custom.py:149 | a row read from a table without a `messages` column is asked with an empty history |
| Custom.RowRecordsCells | deployment_diy_rag/custom.py:150-153 | every row record is a well-formed dict with the target column and one value per column |
| Custom.TargetColumnPerRow | deployment_diy_rag/custom.py:145-155 | the merged target column has exactly one entry per input row |
| Custom.Score | deployment_diy_rag/custom.py:132-156 | the loop returns what the batch specification gives (the first row error, the table, or the DataFrame error); a returned table's target column has one entry per row |
| Custom.MergedRectangularIffUniform | deployment_diy_rag/custom.py:155-156 | the merged records form a table iff every record has every merged column |
| Custom.RaggedMerge | deployment_diy_rag/custom.py:155-156 | a column one record has and another lacks makes the merge ragged |
| Custom.ErrorRecordHasOnlyTarget | deployment_diy_rag/utils.py:160-161 | a row whose chain raised has no citation column |
| Custom.CitedRecordHasContentColumn | deployment_diy_rag/utils.py:153-158 | a row whose answer cites a document has `CITATION_CONTENT_0` |
| Custom.RaggedBatchRejected | deployment_diy_rag/custom.py:155-156 | as written: one failing row plus one row with a cited answer makes `score` raise `ValueError` |
| Custom.PaddedColumnCells | deployment_diy_rag/custom.py:155-156 | a padded column has one cell per record: the record's value, or `""` |
| Custom.MergePadded | deployment_diy_rag/custom.py:155-156 | the corrected merge keeps the plain merge's columns in the same order, and gives every column one cell per record when each record has one cell per column |
| Custom.PaddedMergeRectangular | deployment_diy_rag/custom.py:155-156 | the padded merge always forms a table, keeps the merge's key order, and equals the merge on columns every record has |
| Custom.PaddedEqualsColumn | deployment_diy_rag/utils.py:101-104 | where every record has a key, padding adds nothing |
| Custom.ScorePadded | deployment_diy_rag/custom.py:132-156 | corrected scoring fails only on an unreadable row, and returns a table with one entry per row in every column |
| Custom.LastUserMessage | deployment_diy_rag/custom.py:182-184 | over well-formed messages the backward scan never raises; what it finds is the content of a user message after which no message is a user message |
| Custom.LastUserMessageFound | deployment_diy_rag/custom.py:182-184 | the backward scan returns the content of the last message whose role is user |
| Custom.LastUserMessageNone | deployment_diy_rag/custom.py:182-184 | the scan finds nothing iff every message has a role and none is user |
| Custom.ChatInputOf | deployment_diy_rag/custom.py:176-187 | the input is read iff every message is well formed and some message is from the user; a conversion error is raised first, and with well-formed messages the only error is `ValueError("No user message found in completion params")`; the question is the last user message's content and the history is the converted messages |
| Custom.Chat | deployment_diy_rag/custom.py:159-196 | errors in reading the input are raised before the chain is called; after it, the chain's exception, then `KeyError` for a missing `answer` or `context`, propagate; with both present `chat` succeeds iff a model is given and every document has a source (else a validation error or `KeyError("source")`); a success is one completion with the chain's answer verbatim, the requested model and the context documents as citations |
| Custom.ChatRejectsNoUserMessage | deployment_diy_rag/custom.py:176-187 | with no user message (including no or empty `messages`), `chat` raises `ValueError("No user message found in completion params")` |
| Custom.ChatAsksLastUserMessage | deployment_diy_rag/custom.py:179-190 | the chain is asked the content of the last user message, with the converted history |
| Custom.AnsweredQuestionInHistory | deployment_diy_rag/utils.py:90-93 | a user question followed by assistant messages stays in the history as a Human turn |
| Custom.QuestionBeforeAnswers | deployment_diy_rag/custom.py:182-184 | the backward scan skips the trailing non-user messages and finds that question |
| Custom.ChatRepeatsAnsweredQuestion | deployment_diy_rag/custom.py:179-190 | when an assistant message ends the conversation, the last user question is both the chain input and a Human turn of its history |

## Left out

- `get_chain` / `load_model` (FAISS, embeddings, the Azure model, prompt composition) are foreign library code. The chain is an abstract function, so retrieval and answer quality are not specified.
- The OpenAI token callback around `chain.invoke` is left out: it has no effect on results.
- `traceback.format_exc()` is the parameter `formatExc`, and the trace text is opaque.
- `time.time()` is the parameter `now`. The completion `id` (`chat-<time>`) is not modelled.
- `json.loads` is the parameter `loads`, returning the decoded list of records or nothing.
  - Decoded JSON that is not a list of string-valued objects is not modelled.
  - Non-string values (numbers, nulls) in messages, document metadata (a numeric `page`, say) or table cells are not modelled. All values are strings.
- pandas: only the DataFrame constructor's equal-length check is modelled.
  - Row iteration is a sequence of string maps.
  - Missing cells (NaN) and dtypes are not modelled.
  - Custom.MissingMessagesGiveEmptyHistory: the empty history holds only when the table has no `messages` column at all. An empty cell in an existing `messages` column is NaN, which is truthy, so `json.loads(nan)` raises `TypeError` and the whole batch fails. That case is not modelled.
- pydantic and LangChain validation is reduced to the required fields:
  - message `content` (ValidationError("content"));
  - completion `model` (ValidationError("model")).
  - Other field checks are not modelled.
- A chain output whose `context` is present but not a list (e.g. `None`) is not modelled. Neither are messages that are not dicts.
- Streaming chunks: `chat` never produces them, so there is nothing to model.
- The frontend, the HTTP client in `docsassist/predict.py`, the infrastructure code and the pydantic shapes in `docsassist/schema.py` other than the two column names are not part of this model.
- Utils.CreateResultDict: the exact key list and the target's value are stated only when the target name is not itself a citation column name. `score` always uses `resultText`, which never is one. For other targets the per-citation values are still stated.

## Findings

| source | as written | input that shows it | evidently intended | confidence | as-written member | corrected member |
|---|---|---|---|---|---|---|
| deployment_diy_rag/custom.py:155-156 | `merge_result_dicts` extends only the columns a row has. `pd.DataFrame` then rejects the ragged dict with `ValueError("All arrays must be of the same length")`, so `score` raises for the whole batch. | two rows: the chain raises on the first, and answers the second citing one document. The merge has `resultText` with 2 entries and `CITATION_CONTENT_0` with 1. | per-row failure isolation: one table row per input row, with citation cells missing from a row left empty | high (not executed) | Custom.RaggedBatchRejected | Custom.ScorePadded |
