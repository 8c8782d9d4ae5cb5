/** The two entry points of the custom model (deployment_diy_rag/custom.py):
    batch scoring of a table of questions, and the OpenAI-compatible chat hook.
    The LangChain chain is an opaque function from its input to an output or an
    exception. */
module Custom {
  import opened Wrappers
  import opened PyDict
  import opened Utils
  import Schema

  /** One row of the scoring table: column name to cell. */
  type Row = map<string, string>

  /** `json.loads`, reduced to what the history parser needs. */
  type Loads = string -> Option<seq<Record>>

  // ---------------------------------------------------------------------------
  // score
  // ---------------------------------------------------------------------------

  /** What one row asks the chain. */
  datatype Query = Query(question: string, chatHistory: seq<Turn>)

  /** The question and history of one row. Both are read outside the per-row
      `try`: a missing prompt column or an unparseable history raises out of
      the whole batch. When the table has no `messages` column at all, the row
      reads it as `""` and gets an empty history. */
  function RowInput(row: Row, loads: Loads): (r: Result<Query, Exception>)
    ensures Schema.PROMPT_COLUMN_NAME !in row ==> r == Err(KeyError(Schema.PROMPT_COLUMN_NAME))
    ensures Schema.PROMPT_COLUMN_NAME in row ==>
      var history := ParseChatHistory(GetOr(row, "messages", ""), loads);
      && (history.Err? ==> r == Err(history.error))
      && (history.Ok? ==> r.Ok? && r.value.question == row[Schema.PROMPT_COLUMN_NAME] && r.value.chatHistory == history.value)
    ensures Schema.PROMPT_COLUMN_NAME in row && "messages" !in row ==>
      r == Ok(Query(row[Schema.PROMPT_COLUMN_NAME], []))
  {
    if Schema.PROMPT_COLUMN_NAME !in row then Err(KeyError(Schema.PROMPT_COLUMN_NAME))
    else
      var chatHistory :- ParseChatHistory(GetOr(row, "messages", ""), loads);
      Ok(Query(row[Schema.PROMPT_COLUMN_NAME], chatHistory))
  }

  /** The queries of the rows read so far, or the exception that ended the row loop. */
  function RowInputs(data: seq<Row>, loads: Loads): (r: Result<seq<Query>, Exception>)
    ensures r.Ok? ==> |r.value| == |data|
    decreases |data|
  {
    if data == [] then Ok([])
    else
      var n := |data| - 1;
      var queries :- RowInputs(data[..n], loads);
      var query :- RowInput(data[n], loads);
      Ok(queries + [query])
  }

  /** The record `process_single_row` returns for one query. */
  function RowRecord(query: Query, chain: Chain, formatExc: Exception -> string): Columns
  {
    RowResult(query.question, query.chatHistory, chain, Schema.TARGET_COLUMN_NAME, formatExc)
  }

  function RowRecords(queries: seq<Query>, chain: Chain, formatExc: Exception -> string): seq<Columns>
  {
    seq(|queries|, i requires 0 <= i < |queries| => RowRecord(queries[i], chain, formatExc))
  }

  /** The list `results` the row loop builds, or the exception that ended it. */
  function RowResults(data: seq<Row>, chain: Chain, loads: Loads, formatExc: Exception -> string)
    : Result<seq<Columns>, Exception>
  {
    var queries :- RowInputs(data, loads);
    Ok(RowRecords(queries, chain, formatExc))
  }

  /** `merge_result_dicts(results)`. */
  function ScoreColumns(data: seq<Row>, chain: Chain, loads: Loads, formatExc: Exception -> string)
    : Result<Columns, Exception>
  {
    var queries :- RowInputs(data, loads);
    RowRecordsCells(queries, chain, formatExc);
    Ok(Merged(RowRecords(queries, chain, formatExc)))
  }

  /** Every column has as many cells as every other. */
  predicate Rectangular(d: Columns)
  {
    forall k1, k2 :: k1 in d.keys && k2 in d.keys ==> |GetOr(d.entries, k1, [])| == |GetOr(d.entries, k2, [])|
  }

  /** `pd.DataFrame(columns)`: a dict of lists becomes a table only when all
      lists have the same length. */
  function DataFrame(d: Columns): (r: Result<Columns, Exception>)
    ensures r.Ok? <==> Rectangular(d)
    ensures r.Ok? ==> r.value == d
    ensures r.Err? ==> r.error == ValueError("All arrays must be of the same length")
  {
    if Rectangular(d) then Ok(d) else Err(ValueError("All arrays must be of the same length"))
  }

  /** What `score` returns, or the exception it raises. */
  function ScoreResult(data: seq<Row>, chain: Chain, loads: Loads, formatExc: Exception -> string)
    : Result<Columns, Exception>
  {
    var columns :- ScoreColumns(data, chain, loads, formatExc);
    DataFrame(columns)
  }

  /** An exception raised while reading row `i` ends the loop with that exception. */
  lemma {:induction false} RowInputsErrPropagates(data: seq<Row>, loads: Loads, i: nat)
    requires i <= |data|
    requires RowInputs(data[..i], loads).Err?
    ensures RowInputs(data, loads) == RowInputs(data[..i], loads)
    decreases |data|
  {
    if i < |data| {
      var n := |data| - 1;
      assert data[..n][..i] == data[..i];
      RowInputsErrPropagates(data[..n], loads, i);
    } else {
      assert data[..i] == data;
    }
  }

  /** The batch is read exactly when every row's prompt and history can be read;
      then there is one query per row, in row order. */
  lemma {:induction false} RowInputsOk(data: seq<Row>, loads: Loads)
    ensures RowInputs(data, loads).Ok? <==> forall i :: 0 <= i < |data| ==> RowInput(data[i], loads).Ok?
    ensures RowInputs(data, loads).Ok? ==> forall i :: 0 <= i < |data| ==>
      RowInputs(data, loads).value[i] == RowInput(data[i], loads).value
    decreases |data|
  {
    if data != [] {
      var n := |data| - 1;
      RowInputsOk(data[..n], loads);
      assert forall i :: 0 <= i < n ==> data[..n][i] == data[i];
    }
  }

  /** A failed batch fails with the exception of its first unreadable row. */
  lemma {:induction false} RowInputsFirstError(data: seq<Row>, loads: Loads)
    requires RowInputs(data, loads).Err?
    ensures exists i ::
      && 0 <= i < |data|
      && RowInput(data[i], loads).Err?
      && RowInputs(data, loads).error == RowInput(data[i], loads).error
      && forall j :: 0 <= j < i ==> RowInput(data[j], loads).Ok?
    decreases |data|
  {
    var n := |data| - 1;
    var init := data[..n];
    if RowInputs(init, loads).Err? {
      RowInputsFirstError(init, loads);
      var i :| 0 <= i < |init| && RowInput(init[i], loads).Err?
        && RowInputs(init, loads).error == RowInput(init[i], loads).error
        && forall j :: 0 <= j < i ==> RowInput(init[j], loads).Ok?;
      assert init[i] == data[i];
      assert forall j :: 0 <= j < i ==> init[j] == data[j];
    } else {
      RowInputsOk(init, loads);
      assert forall j :: 0 <= j < n ==> init[j] == data[j];
      assert RowInput(data[n], loads).Err?;
    }
  }

  /** A chain failure does not stop the batch: when every row can be read, the
      batch yields one record per row, and a row whose chain call raised gets
      the error record holding that exception's trace. */
  lemma ChainFailureIsolated(data: seq<Row>, chain: Chain, loads: Loads, formatExc: Exception -> string, i: nat)
    requires forall k :: 0 <= k < |data| ==> RowInput(data[k], loads).Ok?
    requires i < |data|
    requires var q := RowInput(data[i], loads).value; chain(ChainInput(q.question, q.chatHistory)).Err?
    ensures RowResults(data, chain, loads, formatExc).Ok?
    ensures |RowResults(data, chain, loads, formatExc).value| == |data|
    ensures var q := RowInput(data[i], loads).value;
      RowResults(data, chain, loads, formatExc).value[i]
        == ErrorRow(Schema.TARGET_COLUMN_NAME, formatExc(chain(ChainInput(q.question, q.chatHistory)).error))
  {
    RowInputsOk(data, loads);
  }

  /** A row without a `messages` cell is asked with an empty history. */
  lemma MissingMessagesGiveEmptyHistory(row: Row, loads: Loads)
    requires Schema.PROMPT_COLUMN_NAME in row && "messages" !in row
    ensures RowInput(row, loads) == Ok(Query(row[Schema.PROMPT_COLUMN_NAME], []))
  {
  }

  /** Every record is a well-formed dict with the target column and one cell
      per column. */
  lemma RowRecordsCells(queries: seq<Query>, chain: Chain, formatExc: Exception -> string)
    ensures var results := RowRecords(queries, chain, formatExc);
      && AllValid(results)
      && forall i :: 0 <= i < |results| ==> Schema.TARGET_COLUMN_NAME in results[i].entries && SingletonCells(results[i])
  {
    var results := RowRecords(queries, chain, formatExc);
    forall i | 0 <= i < |results|
      ensures results[i].Valid() && Schema.TARGET_COLUMN_NAME in results[i].entries && SingletonCells(results[i])
    {
      RowResultCells(queries[i].question, queries[i].chatHistory, chain, Schema.TARGET_COLUMN_NAME, formatExc);
    }
  }

  /** The merged target column has exactly one entry per input row: the answer
      or the trace of that row, in row order. */
  lemma TargetColumnPerRow(data: seq<Row>, chain: Chain, loads: Loads, formatExc: Exception -> string)
    requires ScoreColumns(data, chain, loads, formatExc).Ok?
    ensures var columns := ScoreColumns(data, chain, loads, formatExc).value;
      && (data != [] ==> Schema.TARGET_COLUMN_NAME in columns.entries)
      && |GetOr(columns.entries, Schema.TARGET_COLUMN_NAME, [])| == |data|
  {
    var queries := RowInputs(data, loads).value;
    var results := RowRecords(queries, chain, formatExc);
    RowRecordsCells(queries, chain, formatExc);
    MergedColumn(results, Schema.TARGET_COLUMN_NAME);
    ColumnLength(results, Schema.TARGET_COLUMN_NAME);
    CountWithAll(results, Schema.TARGET_COLUMN_NAME);
    if data != [] {
      assert results[0].Valid();
      InAllKeys(results, Schema.TARGET_COLUMN_NAME, 0);
    }
  }

  method Score(data: seq<Row>, chain: Chain, loads: Loads, formatExc: Exception -> string)
    returns (r: Result<Columns, Exception>)
    ensures r == ScoreResult(data, chain, loads, formatExc)
    ensures r.Ok? ==> |GetOr(r.value.entries, Schema.TARGET_COLUMN_NAME, [])| == |data|
  {
    var results: seq<Columns> := [];
    ghost var queries: seq<Query> := [];
    var i := 0;
    while i < |data|
      invariant 0 <= i <= |data|
      invariant RowInputs(data[..i], loads) == Ok(queries)
      invariant |results| == i
      invariant forall k :: 0 <= k < i ==> results[k] == RowRecord(queries[k], chain, formatExc)
    {
      var row := data[i];
      assert data[..i + 1][..i] == data[..i];
      if Schema.PROMPT_COLUMN_NAME !in row {
        RowInputsErrPropagates(data, loads, i + 1);
        return Err(KeyError(Schema.PROMPT_COLUMN_NAME));
      }
      var question := row[Schema.PROMPT_COLUMN_NAME];
      var chatHistory := ParseChatHistory(GetOr(row, "messages", ""), loads);
      if chatHistory.Err? {
        RowInputsErrPropagates(data, loads, i + 1);
        return Err(chatHistory.error);
      }
      var result := ProcessSingleRow(question, chatHistory.value, chain, Schema.TARGET_COLUMN_NAME, formatExc);
      queries := queries + [Query(question, chatHistory.value)];
      results := results + [result];
      i := i + 1;
    }
    assert data[..i] == data;
    assert results == RowRecords(queries, chain, formatExc);
    RowRecordsCells(queries, chain, formatExc);
    var finalResult := MergeResultDicts(results);
    r := DataFrame(finalResult);
    if r.Ok? {
      TargetColumnPerRow(data, chain, loads, formatExc);
    }
  }

  // ---------------------------------------------------------------------------
  // The table step rejects ragged columns, and the padded merge that avoids it
  // ---------------------------------------------------------------------------

  /** The merged records of a batch form a table exactly when every record has
      the same columns: any column some row lacks (a citation column beside a
      failed row, or beside a row with fewer citations) makes it ragged. */
  lemma {:induction false} MergedRectangularIffUniform(results: seq<Columns>, target: string)
    requires AllValid(results)
    requires forall i :: 0 <= i < |results| ==> target in results[i].entries && SingletonCells(results[i])
    ensures Rectangular(Merged(results)) <==>
      forall k, i :: k in AllKeys(results) && 0 <= i < |results| ==> k in results[i].entries
  {
    var merged := Merged(results);
    MergedKeys(results);
    ColumnLength(results, target);
    CountWithAll(results, target);
    MergedColumn(results, target);
    forall k | k in merged.keys
      ensures |GetOr(merged.entries, k, [])| == CountWith(results, k)
      ensures CountWith(results, k) == |results| <==> forall i :: 0 <= i < |results| ==> k in results[i].entries
    {
      MergedColumn(results, k);
      ColumnLength(results, k);
      CountWithAll(results, k);
    }
    if results != [] {
      assert results[0].Valid();
      InAllKeys(results, target, 0);
      assert target in merged.keys;
    }
  }

  /** As written, a batch in which one row's chain call fails while another
      row's answer cites at least one document raises instead of returning a
      table. */
  lemma RaggedBatchRejected(data: seq<Row>, chain: Chain, loads: Loads, formatExc: Exception -> string, i: nat, j: nat)
    requires forall k :: 0 <= k < |data| ==> RowInput(data[k], loads).Ok?
    requires i < |data| && j < |data|
    requires var q := RowInput(data[i], loads).value; chain(ChainInput(q.question, q.chatHistory)).Err?
    requires var q := RowInput(data[j], loads).value; var out := chain(ChainInput(q.question, q.chatHistory));
      out.Ok? && out.value.answer.Some? && |ContextOf(out.value)| > 0
    ensures ScoreResult(data, chain, loads, formatExc) == Err(ValueError("All arrays must be of the same length"))
  {
    RowInputsOk(data, loads);
    var queries := RowInputs(data, loads).value;
    var results := RowRecords(queries, chain, formatExc);
    RowRecordsCells(queries, chain, formatExc);
    CitedRecordHasContentColumn(queries[j], chain, formatExc);
    ErrorRecordHasOnlyTarget(queries[i], chain, formatExc);
    RaggedMerge(results, Schema.TARGET_COLUMN_NAME, ContentKey(0), i, j);
  }

  /** A row whose chain call raised yields a record without citation columns. */
  lemma ErrorRecordHasOnlyTarget(query: Query, chain: Chain, formatExc: Exception -> string)
    requires chain(ChainInput(query.question, query.chatHistory)).Err?
    ensures RowRecord(query, chain, formatExc).keys == [Schema.TARGET_COLUMN_NAME]
    ensures ContentKey(0) !in RowRecord(query, chain, formatExc).entries
  {
  }

  /** A row whose answer cites a document yields a record with the first content column. */
  lemma CitedRecordHasContentColumn(query: Query, chain: Chain, formatExc: Exception -> string)
    requires var out := chain(ChainInput(query.question, query.chatHistory));
      out.Ok? && out.value.answer.Some? && |ContextOf(out.value)| > 0
    ensures ContentKey(0) in RowRecord(query, chain, formatExc).entries
  {
    var out := chain(ChainInput(query.question, query.chatHistory)).value;
    ResultDictCitation(out.answer.value, Citations(out), Schema.TARGET_COLUMN_NAME, 0);
  }

  /** A key that one record has and another lacks makes the merge ragged. */
  lemma RaggedMerge(results: seq<Columns>, target: string, key: string, i: nat, j: nat)
    requires AllValid(results)
    requires forall k :: 0 <= k < |results| ==> target in results[k].entries && SingletonCells(results[k])
    requires i < |results| && j < |results| && key !in results[i].entries && key in results[j].entries
    ensures !Rectangular(Merged(results))
  {
    assert results[j].Valid();
    InAllKeys(results, key, j);
    MergedRectangularIffUniform(results, target);
  }

  /** The column for `key` with one cell per result: the result's own cell, or
      `""` where the result lacks the key. */
  function PaddedColumn(results: seq<Columns>, key: string): seq<string>
    decreases |results|
  {
    if results == [] then []
    else
      var n := |results| - 1;
      PaddedColumn(results[..n], key) + (if key in results[n].entries then results[n].entries[key] else [""])
  }

  /** The merge with missing cells filled: same keys in the same order as
      `merge_result_dicts`, every column one cell per result. */
  function MergePadded(results: seq<Columns>): (r: Columns)
    requires AllValid(results)
    ensures r.Valid()
    ensures r.keys == Merged(results).keys
    ensures (forall i :: 0 <= i < |results| ==> SingletonCells(results[i])) ==>
      forall k :: k in r.entries ==> |r.entries[k]| == |results|
  {
    MergedKeys(results);
    PaddedColumnsLength(results);
    var ks := FirstAppearances(AllKeys(results));
    Dict(ks, map k | k in ks :: PaddedColumn(results, k))
  }

  /** With one cell per record, every padded column has one cell per record. */
  lemma PaddedColumnsLength(results: seq<Columns>)
    ensures (forall i :: 0 <= i < |results| ==> SingletonCells(results[i])) ==>
      forall k :: |PaddedColumn(results, k)| == |results|
  {
    if forall i :: 0 <= i < |results| ==> SingletonCells(results[i]) {
      forall k
        ensures |PaddedColumn(results, k)| == |results|
      {
        PaddedColumnCells(results, k);
      }
    }
  }

  /** Cell `i` of a padded column is result `i`'s cell, or `""` when it lacks the key. */
  lemma {:induction false} PaddedColumnCells(results: seq<Columns>, key: string)
    requires forall i :: 0 <= i < |results| ==> SingletonCells(results[i])
    ensures |PaddedColumn(results, key)| == |results|
    ensures forall i :: 0 <= i < |results| ==>
      [PaddedColumn(results, key)[i]] == GetOr(results[i].entries, key, [""])
    decreases |results|
  {
    if results != [] {
      var n := |results| - 1;
      assert SingletonCells(results[n]);
      PaddedColumnCells(results[..n], key);
    }
  }

  /** The padded merge always forms a table, keeps the columns of the plain
      merge in the same order, and agrees with it cell by cell on every column
      all results have. */
  lemma PaddedMergeRectangular(results: seq<Columns>)
    requires AllValid(results)
    requires forall i :: 0 <= i < |results| ==> SingletonCells(results[i])
    ensures Rectangular(MergePadded(results))
    ensures DataFrame(MergePadded(results)).Ok?
    ensures MergePadded(results).keys == Merged(results).keys
    ensures forall k :: k in MergePadded(results).entries ==>
      |MergePadded(results).entries[k]| == |results|
    ensures forall k :: k in Merged(results).entries && CountWith(results, k) == |results| ==>
      MergePadded(results).entries[k] == Merged(results).entries[k]
  {
    var padded := MergePadded(results);
    MergedKeys(results);
    forall k | k in padded.entries
      ensures |padded.entries[k]| == |results|
    {
      PaddedColumnCells(results, k);
    }
    forall k | k in Merged(results).entries && CountWith(results, k) == |results|
      ensures padded.entries[k] == Merged(results).entries[k]
    {
      MergedColumn(results, k);
      CountWithAll(results, k);
      PaddedEqualsColumn(results, k);
    }
  }

  /** Where every result has the key, padding adds nothing. */
  lemma {:induction false} PaddedEqualsColumn(results: seq<Columns>, key: string)
    requires forall i :: 0 <= i < |results| ==> key in results[i].entries
    ensures PaddedColumn(results, key) == Column(results, key)
    decreases |results|
  {
    if results != [] {
      var n := |results| - 1;
      assert forall i :: 0 <= i < n ==> results[..n][i] == results[i];
      PaddedEqualsColumn(results[..n], key);
    }
  }

  /** `score` with the padded merge: it fails only when a row's input cannot be
      read, and then returns one table row per input row. */
  function ScorePadded(data: seq<Row>, chain: Chain, loads: Loads, formatExc: Exception -> string)
    : (r: Result<Columns, Exception>)
    ensures r.Ok? <==> RowInputs(data, loads).Ok?
    ensures r.Ok? ==> Rectangular(r.value) && forall k :: k in r.value.entries ==> |r.value.entries[k]| == |data|
    ensures r.Ok? && data != [] ==> Schema.TARGET_COLUMN_NAME in r.value.entries
  {
    match RowInputs(data, loads)
    case Err(e) => Err(e)
    case Ok(queries) =>
      var results := RowRecords(queries, chain, formatExc);
      RowRecordsCells(queries, chain, formatExc);
      PaddedMergeRectangular(results);
      assert data != [] ==> Schema.TARGET_COLUMN_NAME in MergePadded(results).entries by {
        if data != [] {
          assert results[0].Valid();
          InAllKeys(results, Schema.TARGET_COLUMN_NAME, 0);
        }
      }
      DataFrame(MergePadded(results))
  }

  // ---------------------------------------------------------------------------
  // chat
  // ---------------------------------------------------------------------------

  /** The two completion parameters `chat` reads; either may be absent. */
  datatype CompletionParams = CompletionParams(model: Option<string>, messages: Option<seq<Record>>)

  /** Message `i` is a user message and no later message is. */
  predicate LastUserAt(messages: seq<Record>, i: int)
  {
    && 0 <= i < |messages| && "role" in messages[i] && messages[i]["role"] == "user"
    && forall j :: i < j < |messages| ==> "role" in messages[j] && messages[j]["role"] != "user"
  }

  /** The content of the last message whose role is `"user"`, scanning from the
      end; `None` when there is none. */
  function LastUserMessage(messages: seq<Record>): (r: Result<Option<string>, Exception>)
    ensures (forall j :: 0 <= j < |messages| ==> WellFormedMessage(messages[j])) ==> r.Ok?
    ensures r.Ok? && r.value.Some? ==>
      exists i :: LastUserAt(messages, i) && "content" in messages[i] && r.value.value == messages[i]["content"]
    decreases |messages|
  {
    if messages == [] then Ok(None)
    else
      var n := |messages| - 1;
      var m := messages[n];
      if "role" !in m then Err(KeyError("role"))
      else if m["role"] == "user" then
        (if "content" in m then assert LastUserAt(messages, n); Ok(Some(m["content"])) else Err(KeyError("content")))
      else
        assert forall j :: 0 <= j < n ==> messages[..n][j] == messages[j];
        LastUserMessage(messages[..n])
  }

  /** The scan finds message `i` when it is a user message and every later
      message has a role other than user. */
  lemma {:induction false} LastUserMessageFound(messages: seq<Record>, i: nat)
    requires i < |messages| && WellFormedMessage(messages[i]) && messages[i]["role"] == "user"
    requires forall j :: i < j < |messages| ==> "role" in messages[j] && messages[j]["role"] != "user"
    ensures LastUserMessage(messages) == Ok(Some(messages[i]["content"]))
    decreases |messages|
  {
    var n := |messages| - 1;
    if i < n {
      assert forall j :: i < j < n ==> messages[..n][j] == messages[j];
      LastUserMessageFound(messages[..n], i);
    }
  }

  /** The scan finds nothing exactly when every message has a role and none is user. */
  lemma {:induction false} LastUserMessageNone(messages: seq<Record>)
    ensures LastUserMessage(messages) == Ok(None) <==>
      forall j :: 0 <= j < |messages| ==> "role" in messages[j] && messages[j]["role"] != "user"
    decreases |messages|
  {
    if messages != [] {
      var n := |messages| - 1;
      assert forall j :: 0 <= j < n ==> messages[..n][j] == messages[j];
      LastUserMessageNone(messages[..n]);
    }
  }

  /** The chain input `chat` builds: the question and the converted history. */
  function ChatInputOf(params: CompletionParams): (r: Result<(string, seq<Turn>), Exception>)
    ensures var messages := params.messages.GetOr([]);
      r.Ok? <==>
        && (forall j :: 0 <= j < |messages| ==> WellFormedMessage(messages[j]))
        && exists j :: 0 <= j < |messages| && "role" in messages[j] && messages[j]["role"] == "user"
    ensures var messages := params.messages.GetOr([]);
      ChatHistoryOf(messages).Err? ==> r == Err(ChatHistoryOf(messages).error)
    ensures var messages := params.messages.GetOr([]);
      r.Err? && (forall j :: 0 <= j < |messages| ==> WellFormedMessage(messages[j])) ==>
        r.error == ValueError("No user message found in completion params")
    ensures var messages := params.messages.GetOr([]);
      r.Ok? ==>
        && ChatHistoryOf(messages) == Ok(r.value.1)
        && exists i :: LastUserAt(messages, i) && "content" in messages[i] && r.value.0 == messages[i]["content"]
  {
    var messages := params.messages.GetOr([]);
    RetainedTurnsKeepsConversation(messages);
    LastUserMessageNone(messages);
    var chatHistory :- ChatHistoryOf(messages);
    var userMessage :- LastUserMessage(messages);
    if userMessage.None? then Err(ValueError("No user message found in completion params"))
    else Ok((userMessage.value, chatHistory))
  }

  /** What `chat` returns, or the exception it raises; `now` stands for the clock.
      It never streams: a success is one completion answering with the chain's
      answer verbatim, naming the requested model and citing the chain's
      context documents in order. */
  function Chat(params: CompletionParams, chain: Chain, now: int): (r: Result<ChatCompletion, Exception>)
    ensures ChatInputOf(params).Err? ==> r == Err(ChatInputOf(params).error)
    ensures r.Ok? ==> ChatInputOf(params).Ok?
    ensures r.Ok? && ChatInputOf(params).Ok? ==>
      var input := ChatInputOf(params).value;
      var response := chain(ChainInput(input.0, input.1));
      && response.Ok? && response.value.answer.Some? && response.value.context.Some?
      && params.model.Some?
      && r.value.choices == [Choice("stop", 0, ChatMessage("assistant", response.value.answer.value))]
      && r.value.model == params.model.value
      && r.value.created == now
      && |r.value.citations| == |response.value.context.value|
      && forall k :: 0 <= k < |r.value.citations| ==>
           && r.value.citations[k].content == response.value.context.value[k].pageContent
           && "source" in response.value.context.value[k].metadata
           && r.value.citations[k].link == response.value.context.value[k].metadata["source"]
    ensures ChatInputOf(params).Ok? ==>
      var input := ChatInputOf(params).value;
      var response := chain(ChainInput(input.0, input.1));
      && (response.Err? ==> r == Err(response.error))
      && (response.Ok? && response.value.answer.None? ==> r == Err(KeyError("answer")))
      && (response.Ok? && response.value.answer.Some? && response.value.context.None? ==> r == Err(KeyError("context")))
      && (response.Ok? && response.value.answer.Some? && response.value.context.Some? ==>
            var docs := response.value.context.value;
            && (r.Ok? <==> params.model.Some? && forall k :: 0 <= k < |docs| ==> "source" in docs[k].metadata)
            && (params.model.None? ==> r == Err(ValidationError("model")))
            && (params.model.Some? && r.Err? ==> r.error == KeyError("source")))
  {
    var input :- ChatInputOf(params);
    var response :- chain(ChainInput(input.0, input.1));
    if response.answer.None? then Err(KeyError("answer"))
    else if response.context.None? then Err(KeyError("context"))
    else CreateChatCompletion(response.answer.value, params.model, response.context.value, None, now)
  }

  /** Without a user message (in particular with no messages at all) `chat`
      raises `ValueError` and never calls the chain. */
  lemma ChatRejectsNoUserMessage(params: CompletionParams, chain: Chain, now: int)
    requires var messages := params.messages.GetOr([]);
      forall j :: 0 <= j < |messages| ==> WellFormedMessage(messages[j]) && messages[j]["role"] != "user"
    ensures ChatInputOf(params) == Err(ValueError("No user message found in completion params"))
    ensures Chat(params, chain, now) == Err(ValueError("No user message found in completion params"))
  {
    var messages := params.messages.GetOr([]);
    RetainedTurnsKeepsConversation(messages);
    LastUserMessageNone(messages);
  }

  /** The chain is asked the content of the last user message, with the
      converted history. */
  lemma ChatAsksLastUserMessage(params: CompletionParams, i: nat)
    requires var messages := params.messages.GetOr([]);
      && (forall j :: 0 <= j < |messages| ==> WellFormedMessage(messages[j]))
      && i < |messages| && messages[i]["role"] == "user"
      && (forall j :: i < j < |messages| ==> messages[j]["role"] != "user")
    ensures var messages := params.messages.GetOr([]);
      && ChatHistoryOf(messages).Ok?
      && ChatInputOf(params) == Ok((messages[i]["content"], ChatHistoryOf(messages).value))
  {
    var messages := params.messages.GetOr([]);
    RetainedTurnsKeepsConversation(messages);
    LastUserMessageFound(messages, i);
  }

  /** Messages without a user message, ending in an assistant message, convert
      to turns ending in an AI turn. */
  lemma AnsweredTurns(after: seq<Record>)
    requires forall j :: 0 <= j < |after| ==> WellFormedMessage(after[j]) && after[j]["role"] != "user"
    requires |after| > 0 && "role" in after[|after| - 1] && after[|after| - 1]["role"] == "assistant"
    ensures RetainedTurns(after).Ok?
    ensures var tail := RetainedTurns(after).value; |tail| > 0 && tail[|tail| - 1].AIMessage?
  {
    var n := |after| - 1;
    assert forall j :: 0 <= j < n ==> after[..n][j] == after[j];
    RetainedTurnsKeepsConversation(after[..n]);
  }

  /** When an assistant message follows the last user message, that question
      reaches the chain twice: as the input and as a human turn of the history. */
  lemma ChatRepeatsAnsweredQuestion(before: seq<Record>, question: string, after: seq<Record>)
    requires forall j :: 0 <= j < |before| ==> WellFormedMessage(before[j])
    requires forall j :: 0 <= j < |after| ==> WellFormedMessage(after[j]) && after[j]["role"] != "user"
    requires |after| > 0 && "role" in after[|after| - 1] && after[|after| - 1]["role"] == "assistant"
    ensures var messages := before + [map["role" := "user", "content" := question]] + after;
      var input := ChatInputOf(CompletionParams(None, Some(messages)));
      input.Ok? && input.value.0 == question && HumanMessage(question) in input.value.1
  {
    AnsweredQuestionInHistory(before, question, after);
    QuestionBeforeAnswers(before, question, after);
  }

  /** The history keeps a question that an assistant message follows. */
  lemma AnsweredQuestionInHistory(before: seq<Record>, question: string, after: seq<Record>)
    requires forall j :: 0 <= j < |before| ==> WellFormedMessage(before[j])
    requires forall j :: 0 <= j < |after| ==> WellFormedMessage(after[j]) && after[j]["role"] != "user"
    requires |after| > 0 && "role" in after[|after| - 1] && after[|after| - 1]["role"] == "assistant"
    ensures var history := ChatHistoryOf(before + [map["role" := "user", "content" := question]] + after);
      history.Ok? && HumanMessage(question) in history.value
  {
    var u: Record := map["role" := "user", "content" := question];
    var head := RetainedTurns(before + [u]);
    assert head.Ok? && head.value[|head.value| - 1] == HumanMessage(question) by {
      RetainedTurnsKeepsConversation(before);
      assert (before + [u])[..|before|] == before;
    }
    AnsweredTurns(after);
    var tail := RetainedTurns(after).value;
    RetainedTurnsAppend(before + [u], after);
    var turns := head.value + tail;
    assert turns[|turns| - 1] == tail[|tail| - 1];
    assert turns[|head.value| - 1] == HumanMessage(question);
  }

  /** Scanning back over messages without a user role finds the question before them. */
  lemma {:induction false} QuestionBeforeAnswers(before: seq<Record>, question: string, after: seq<Record>)
    requires forall j :: 0 <= j < |after| ==> "role" in after[j] && after[j]["role"] != "user"
    ensures LastUserMessage(before + [map["role" := "user", "content" := question]] + after) == Ok(Some(question))
    decreases |after|
  {
    var u: Record := map["role" := "user", "content" := question];
    if after == [] {
      assert before + [u] + after == before + [u];
    } else {
      var n := |after| - 1;
      QuestionBeforeAnswers(before, question, after[..n]);
      AppendDropLast(before + [u], after);
    }
  }
}
