/** The query-time adapters of the RAG deployment (deployment_diy_rag/utils.py):
    message/history conversion, citation extraction, per-row result records and
    their column-wise merge, and the OpenAI-shaped chat completion. */
module Utils {
  import opened Wrappers
  import opened PyDict
  import opened Decimal
  import Schema

  // ---------------------------------------------------------------------------
  // Data model
  // ---------------------------------------------------------------------------

  /** A JSON object with string values: an OpenAI-style message `{role, content}`
      or one record of a serialized chat history. */
  type Record = map<string, string>

  /** What the adapters raise. */
  datatype Exception =
    | KeyError(key: string)          // a hard lookup `d[key]` on a missing key
    | ValueError(message: string)    // raised explicitly, or by the DataFrame constructor
    | ValidationError(field: string) // a pydantic model rejected its input
    | JsonDecodeError(text: string)  // `json.loads` could not produce a list of records
    | ChainError(detail: string)     // anything the chain itself raises

  /** A LangChain chat-history message. */
  datatype Turn = HumanMessage(content: string) | AIMessage(content: string)

  /** A retrieved LangChain document. */
  datatype Document = Document(pageContent: string, metadata: map<string, string>)

  datatype CitationInfo = CitationInfo(content: string, source: string, page: string)

  /** The dict handed to `chain.invoke`. */
  datatype ChainInput = ChainInput(input: string, chatHistory: seq<Turn>)

  /** The dict the chain returns, reduced to the two keys the adapters read;
      either may be missing. */
  datatype ChainOutput = ChainOutput(answer: Option<string>, context: Option<seq<Document>>)

  /** The LangChain retrieval chain, opaque: it answers or it raises. */
  type Chain = ChainInput -> Result<ChainOutput, Exception>

  /** One result column per key, each a list of cell values. */
  type Columns = Dict<seq<string>>

  // ---------------------------------------------------------------------------
  // convert_messages_to_chat_history
  // ---------------------------------------------------------------------------

  /** What one OpenAI message contributes to the history: system and unknown
      roles contribute nothing; user and assistant messages a turn. */
  function RetainTurn(msg: Record): (r: Result<Option<Turn>, Exception>)
    ensures r.Ok? <==> WellFormedMessage(msg)
    ensures r.Err? ==> r.error == KeyError(if "role" in msg then "content" else "role")
    ensures r.Ok? ==> (r.value.Some? <==> IsConversational(msg))
    ensures r.Ok? && r.value.Some? ==>
      r.value.value.content == msg["content"] && (r.value.value.HumanMessage? <==> msg["role"] == "user")
  {
    if "role" !in msg then Err(KeyError("role"))
    else if msg["role"] == "system" then Ok(None)
    else if msg["role"] == "user" then
      if "content" in msg then Ok(Some(HumanMessage(msg["content"]))) else Err(KeyError("content"))
    else if msg["role"] == "assistant" then
      if "content" in msg then Ok(Some(AIMessage(msg["content"]))) else Err(KeyError("content"))
    else Ok(None)
  }

  /** The turns the conversion loop has accumulated after reading `messages`. */
  function RetainedTurns(messages: seq<Record>): Result<seq<Turn>, Exception>
    decreases |messages|
  {
    if messages == [] then Ok([])
    else
      var turns :- RetainedTurns(messages[..|messages| - 1]);
      var t :- RetainTurn(messages[|messages| - 1]);
      Ok(if t.Some? then turns + [t.value] else turns)
  }

  /** Removes one trailing human turn: the question that is passed separately. */
  function DropPendingQuestion(turns: seq<Turn>): (r: seq<Turn>)
    ensures r <= turns && |turns| - 1 <= |r|
    ensures |r| < |turns| <==> |turns| > 0 && turns[|turns| - 1].HumanMessage?
  {
    if |turns| > 0 && turns[|turns| - 1].HumanMessage? then turns[..|turns| - 1] else turns
  }

  /** The value `convert_messages_to_chat_history` returns or the exception it raises. */
  function ChatHistoryOf(messages: seq<Record>): Result<seq<Turn>, Exception>
  {
    var turns :- RetainedTurns(messages);
    Ok(DropPendingQuestion(turns))
  }

  /** Once a prefix of the messages raises, the whole conversion raises the same exception. */
  lemma {:induction false} RetainedTurnsErrPropagates(messages: seq<Record>, i: nat)
    requires i <= |messages| && RetainedTurns(messages[..i]).Err?
    ensures RetainedTurns(messages) == RetainedTurns(messages[..i])
    decreases |messages| - i
  {
    if i < |messages| {
      var n := |messages|;
      assert messages[..n][..n - 1] == messages[..n - 1];
      if i < n - 1 {
        assert messages[..n - 1][..i] == messages[..i];
        RetainedTurnsErrPropagates(messages[..n - 1], i);
      } else {
        assert messages[..n - 1] == messages[..i];
      }
      assert messages[..n] == messages;
    } else {
      assert messages[..i] == messages;
    }
  }

  method ConvertMessagesToChatHistory(messages: seq<Record>) returns (r: Result<seq<Turn>, Exception>)
    ensures r == ChatHistoryOf(messages)
  {
    var chatHistory: seq<Turn> := [];
    var i := 0;
    while i < |messages|
      invariant 0 <= i <= |messages|
      invariant RetainedTurns(messages[..i]) == Ok(chatHistory)
    {
      var msg := messages[i];
      assert messages[..i + 1][..i] == messages[..i];
      assert messages[..i + 1][i] == msg;
      if "role" !in msg {
        RetainedTurnsErrPropagates(messages, i + 1);
        return Err(KeyError("role"));
      }
      if msg["role"] == "system" {
      } else if msg["role"] == "user" {
        if "content" !in msg {
          RetainedTurnsErrPropagates(messages, i + 1);
          return Err(KeyError("content"));
        }
        chatHistory := chatHistory + [HumanMessage(msg["content"])];
      } else if msg["role"] == "assistant" {
        if "content" !in msg {
          RetainedTurnsErrPropagates(messages, i + 1);
          return Err(KeyError("content"));
        }
        chatHistory := chatHistory + [AIMessage(msg["content"])];
      }
      i := i + 1;
    }
    assert messages[..i] == messages;
    if |chatHistory| > 0 && chatHistory[|chatHistory| - 1].HumanMessage? {
      return Ok(chatHistory[..|chatHistory| - 1]);
    }
    return Ok(chatHistory);
  }

  // ---------------------------------------------------------------------------
  // What the conversion keeps
  // ---------------------------------------------------------------------------

  /** A message the conversion accepts: it has a role, and a content when the
      role is user or assistant. */
  predicate WellFormedMessage(m: Record)
  {
    "role" in m && ((m["role"] == "user" || m["role"] == "assistant") ==> "content" in m)
  }

  predicate IsConversational(m: Record)
  {
    "role" in m && (m["role"] == "user" || m["role"] == "assistant")
  }

  /** The user and assistant messages of `messages`, in order. */
  function Conversational(messages: seq<Record>): seq<Record>
    decreases |messages|
  {
    if messages == [] then []
    else
      var n := |messages| - 1;
      Conversational(messages[..n]) + (if IsConversational(messages[n]) then [messages[n]] else [])
  }

  /** `t` is the LangChain message for record `m`: same content, human exactly for role "user". */
  predicate TurnOf(t: Turn, m: Record)
  {
    "role" in m && "content" in m && t.content == m["content"] && (t.HumanMessage? <==> m["role"] == "user")
  }

  predicate TurnsOf(turns: seq<Turn>, records: seq<Record>)
  {
    |turns| == |records| && forall j :: 0 <= j < |turns| ==> TurnOf(turns[j], records[j])
  }

  /** The conversion succeeds exactly on well-formed messages, and then yields
      one turn per user or assistant message, in order: user as human, assistant as AI. */
  lemma {:induction false} RetainedTurnsKeepsConversation(messages: seq<Record>)
    ensures RetainedTurns(messages).Ok? <==> forall i :: 0 <= i < |messages| ==> WellFormedMessage(messages[i])
    ensures RetainedTurns(messages).Ok? ==> TurnsOf(RetainedTurns(messages).value, Conversational(messages))
    decreases |messages|
  {
    if messages != [] {
      var n := |messages| - 1;
      var init := messages[..n];
      RetainedTurnsKeepsConversation(init);
      assert forall i :: 0 <= i < n ==> init[i] == messages[i];
    }
  }

  /** Converting a concatenation converts each part and concatenates the turns;
      the first exception raised, in message order, wins. */
  lemma {:induction false} RetainedTurnsAppend(a: seq<Record>, b: seq<Record>)
    ensures RetainedTurns(a).Err? ==> RetainedTurns(a + b) == RetainedTurns(a)
    ensures RetainedTurns(a).Ok? && RetainedTurns(b).Err? ==> RetainedTurns(a + b) == RetainedTurns(b)
    ensures RetainedTurns(a).Ok? && RetainedTurns(b).Ok? ==>
      RetainedTurns(a + b) == Ok(RetainedTurns(a).value + RetainedTurns(b).value)
    decreases |b|
  {
    if b == [] {
      assert a + b == a;
      if RetainedTurns(a).Ok? {
        assert RetainedTurns(a).value + [] == RetainedTurns(a).value;
      }
    } else {
      var n := |b| - 1;
      RetainedTurnsAppend(a, b[..n]);
      assert (a + b)[..|a + b| - 1] == a + b[..n];
      assert (a + b)[|a + b| - 1] == b[n];
      if RetainedTurns(a).Ok? && RetainedTurns(b).Ok? {
        var t := RetainTurn(b[n]);
        assert RetainedTurns(b[..n]).Ok? && t.Ok?;
        var x, y := RetainedTurns(a).value, RetainedTurns(b[..n]).value;
        assert RetainedTurns(a + b[..n]) == Ok(x + y);
        if t.value.Some? {
          assert RetainedTurns(a + b) == Ok((x + y) + [t.value.value]);
          assert x + (y + [t.value.value]) == (x + y) + [t.value.value];
        }
      }
    }
  }

  /** A system message (or any message whose role is neither user nor assistant)
      can be removed without changing the conversion. */
  lemma SystemMessageDropped(a: seq<Record>, m: Record, b: seq<Record>)
    requires "role" in m && m["role"] != "user" && m["role"] != "assistant"
    ensures RetainedTurns(a + [m] + b) == RetainedTurns(a + b)
    ensures ChatHistoryOf(a + [m] + b) == ChatHistoryOf(a + b)
  {
    assert (a + [m])[..|a|] == a;
    RetainedTurnsAppend(a + [m], b);
    RetainedTurnsAppend(a, b);
  }

  /** A question appended as a final user message is exactly what the history
      leaves out; when the earlier messages end in an assistant turn, the history
      is the one the earlier messages alone give. */
  lemma PendingQuestionExcluded(h: seq<Record>, question: string)
    ensures ChatHistoryOf(h + [map["role" := "user", "content" := question]]) == RetainedTurns(h)
    ensures RetainedTurns(h).Ok? && (RetainedTurns(h).value == [] || RetainedTurns(h).value[|RetainedTurns(h).value| - 1].AIMessage?) ==>
      ChatHistoryOf(h + [map["role" := "user", "content" := question]]) == ChatHistoryOf(h)
  {
    var m := map["role" := "user", "content" := question];
    assert (h + [m])[..|h|] == h;
  }

  /** Only one trailing user turn is removed: of two trailing questions the earlier stays. */
  lemma OnlyLastQuestionExcluded(h: seq<Record>, q1: string, q2: string)
    requires RetainedTurns(h).Ok?
    ensures ChatHistoryOf(h + [map["role" := "user", "content" := q1], map["role" := "user", "content" := q2]])
      == Ok(RetainedTurns(h).value + [HumanMessage(q1)])
  {
    var m1 := map["role" := "user", "content" := q1];
    assert h + [m1, map["role" := "user", "content" := q2]] == (h + [m1]) + [map["role" := "user", "content" := q2]];
    PendingQuestionExcluded(h + [m1], q2);
    assert (h + [m1])[..|h|] == h;
    assert RetainTurn(m1) == Ok(Some(HumanMessage(q1)));
  }

  // ---------------------------------------------------------------------------
  // parse_chat_history
  // ---------------------------------------------------------------------------

  /** `HumanMessage.validate(msg) if msg["role"] == "user" else AIMessage.validate(msg)`. */
  function ParseTurn(msg: Record): (r: Result<Turn, Exception>)
    ensures r.Ok? <==> "role" in msg && "content" in msg
    ensures r.Err? ==> r.error == (if "role" in msg then ValidationError("content") else KeyError("role"))
    ensures r.Ok? ==> r.value.content == msg["content"] && (r.value.HumanMessage? <==> msg["role"] == "user")
  {
    if "role" !in msg then Err(KeyError("role"))
    else if "content" !in msg then Err(ValidationError("content"))
    else if msg["role"] == "user" then Ok(HumanMessage(msg["content"]))
    else Ok(AIMessage(msg["content"]))
  }

  /** The comprehension over the decoded records: one turn per record, in order;
      the first record that fails stops it. */
  function ParseRecords(records: seq<Record>): (r: Result<seq<Turn>, Exception>)
    ensures r.Ok? <==> forall i :: 0 <= i < |records| ==> "role" in records[i] && "content" in records[i]
    ensures r.Ok? ==> TurnsOf(r.value, records)
  {
    if records == [] then Ok([])
    else
      var t :- ParseTurn(records[0]);
      var rest :- ParseRecords(records[1..]);
      Ok([t] + rest)
  }

  /** An empty serialized history is an empty history; otherwise the decoded
      records are mapped one to one, role "user" to a human turn and every other
      role, system included, to an AI turn. `loads` stands for `json.loads`,
      answering None when the text does not decode to a list of records. */
  function ParseChatHistory(messagesJson: string, loads: string -> Option<seq<Record>>): (r: Result<seq<Turn>, Exception>)
    ensures messagesJson == "" ==> r == Ok([])
    ensures messagesJson != "" && loads(messagesJson).None? ==> r == Err(JsonDecodeError(messagesJson))
    ensures messagesJson != "" && loads(messagesJson).Some? ==>
      && (r.Ok? <==> forall i :: 0 <= i < |loads(messagesJson).value| ==>
            "role" in loads(messagesJson).value[i] && "content" in loads(messagesJson).value[i])
      && (r.Ok? ==> TurnsOf(r.value, loads(messagesJson).value))
  {
    if messagesJson == "" then Ok([])
    else
      match loads(messagesJson)
      case None => Err(JsonDecodeError(messagesJson))
      case Some(records) => ParseRecords(records)
  }

  /** The records determine the turns. */
  lemma {:induction false} TurnsOfUnique(t1: seq<Turn>, t2: seq<Turn>, records: seq<Record>)
    requires TurnsOf(t1, records) && TurnsOf(t2, records)
    ensures t1 == t2
  {
    forall j | 0 <= j < |t1|
      ensures t1[j] == t2[j]
    {
      assert TurnOf(t1[j], records[j]) && TurnOf(t2[j], records[j]);
    }
  }

  /** On records that hold only user and assistant messages, all with content,
      the two adapters agree on every turn; they differ only in that the
      conversion drops system messages (the parser keeps them as AI turns) and
      withholds a trailing question. */
  lemma {:induction false} ParserAgreesWithConversion(records: seq<Record>)
    requires forall i :: 0 <= i < |records| ==> IsConversational(records[i]) && "content" in records[i]
    ensures ParseRecords(records).Ok? && RetainedTurns(records).Ok?
    ensures ParseRecords(records) == RetainedTurns(records)
    decreases |records|
  {
    RetainedTurnsKeepsConversation(records);
    ConversationalKeepsAll(records);
    TurnsOfUnique(ParseRecords(records).value, RetainedTurns(records).value, records);
  }

  lemma {:induction false} ConversationalKeepsAll(records: seq<Record>)
    requires forall i :: 0 <= i < |records| ==> IsConversational(records[i])
    ensures Conversational(records) == records
    decreases |records|
  {
    if records != [] {
      var n := |records| - 1;
      ConversationalKeepsAll(records[..n]);
      assert records[..n] + [records[n]] == records;
    }
  }

  // ---------------------------------------------------------------------------
  // process_citations
  // ---------------------------------------------------------------------------

  /** `chain_output.get("context", [])`. */
  function ContextOf(chainOutput: ChainOutput): seq<Document>
  {
    chainOutput.context.GetOr([])
  }

  function CitationOf(doc: Document): CitationInfo
  {
    CitationInfo(doc.pageContent, GetOr(doc.metadata, "source", ""), GetOr(doc.metadata, "page", ""))
  }

  /** The citations `process_citations` returns, as a value. */
  function Citations(chainOutput: ChainOutput): seq<CitationInfo>
  {
    var docs := ContextOf(chainOutput);
    seq(|docs|, i requires 0 <= i < |docs| => CitationOf(docs[i]))
  }

  method ProcessCitations(chainOutput: ChainOutput) returns (citations: seq<CitationInfo>)
    ensures |citations| == |ContextOf(chainOutput)|
    ensures forall i :: 0 <= i < |citations| ==>
      var doc := ContextOf(chainOutput)[i];
      && citations[i].content == doc.pageContent
      && citations[i].source == (if "source" in doc.metadata then doc.metadata["source"] else "")
      && citations[i].page == (if "page" in doc.metadata then doc.metadata["page"] else "")
    ensures citations == Citations(chainOutput)
  {
    citations := [];
    var docs := if chainOutput.context.Some? then chainOutput.context.value else [];
    var i := 0;
    while i < |docs|
      invariant 0 <= i <= |docs|
      invariant |citations| == i
      invariant forall j :: 0 <= j < i ==> citations[j] == CitationOf(docs[j])
    {
      var doc := docs[i];
      citations := citations + [CitationInfo(
        doc.pageContent,
        GetOr(doc.metadata, "source", ""),
        GetOr(doc.metadata, "page", ""))];
      i := i + 1;
    }
  }

  // ---------------------------------------------------------------------------
  // Citation column names
  // ---------------------------------------------------------------------------

  function ContentKey(i: nat): string { "CITATION_CONTENT_" + NatToString(i) }
  function SourceKey(i: nat): string { "CITATION_SOURCE_" + NatToString(i) }
  function PageKey(i: nat): string { "CITATION_PAGE_" + NatToString(i) }

  /** The citation columns of `n` citations, in the order they are inserted. */
  function CitationKeys(n: nat): seq<string>
  {
    if n == 0 then [] else CitationKeys(n - 1) + [ContentKey(n - 1), SourceKey(n - 1), PageKey(n - 1)]
  }

  /** Citation column names never collide: each names one field of one citation. */
  lemma CitationKeysInjective(i: nat, j: nat)
    ensures ContentKey(i) == ContentKey(j) ==> i == j
    ensures SourceKey(i) == SourceKey(j) ==> i == j
    ensures PageKey(i) == PageKey(j) ==> i == j
    ensures ContentKey(i) != SourceKey(j) && ContentKey(i) != PageKey(j) && SourceKey(i) != PageKey(j)
  {
    assert ContentKey(i)[9] == 'C' && SourceKey(j)[9] == 'S' && PageKey(j)[9] == 'P';
    assert SourceKey(i)[9] == 'S';
    if ContentKey(i) == ContentKey(j) {
      assert NatToString(i) == ContentKey(i)[17..] == ContentKey(j)[17..] == NatToString(j);
      NatToStringInjective(i, j);
    }
    if SourceKey(i) == SourceKey(j) {
      assert NatToString(i) == SourceKey(i)[16..] == SourceKey(j)[16..] == NatToString(j);
      NatToStringInjective(i, j);
    }
    if PageKey(i) == PageKey(j) {
      assert NatToString(i) == PageKey(i)[14..] == PageKey(j)[14..] == NatToString(j);
      NatToStringInjective(i, j);
    }
  }

  /** Every citation column of `n` citations belongs to an index below `n`. */
  lemma {:induction false} CitationKeysBelow(n: nat, k: string)
    requires k in CitationKeys(n)
    ensures exists i :: 0 <= i < n && (k == ContentKey(i) || k == SourceKey(i) || k == PageKey(i))
  {
    if k !in CitationKeys(n - 1) {
      assert k == ContentKey(n - 1) || k == SourceKey(n - 1) || k == PageKey(n - 1);
    } else {
      CitationKeysBelow(n - 1, k);
    }
  }

  /** The columns of citation `n` are not among those of citations 0..n-1. */
  lemma FreshCitationKeys(n: nat)
    ensures ContentKey(n) !in CitationKeys(n)
    ensures SourceKey(n) !in CitationKeys(n)
    ensures PageKey(n) !in CitationKeys(n)
  {
    forall k | k in CitationKeys(n)
      ensures k != ContentKey(n) && k != SourceKey(n) && k != PageKey(n)
    {
      CitationKeysBelow(n, k);
      var i :| 0 <= i < n && (k == ContentKey(i) || k == SourceKey(i) || k == PageKey(i));
      CitationKeysInjective(i, n);
      CitationKeysInjective(n, i);
    }
  }

  /** Every citation column name starts with 'C' (of "CITATION_"). */
  lemma {:induction false} CitationKeysInitial(n: nat)
    ensures forall k :: k in CitationKeys(n) ==> |k| > 0 && k[0] == 'C'
  {
    if n > 0 {
      CitationKeysInitial(n - 1);
      assert ContentKey(n - 1)[0] == 'C' && SourceKey(n - 1)[0] == 'C' && PageKey(n - 1)[0] == 'C';
    }
  }

  // ---------------------------------------------------------------------------
  // create_result_dict
  // ---------------------------------------------------------------------------

  /** The record `create_result_dict` builds, insertion by insertion. */
  function ResultDictOf(answer: string, citations: seq<CitationInfo>, target: string): (d: Columns)
    ensures d.Valid()
    decreases |citations|
  {
    if citations == [] then Set(Empty(), target, [answer])
    else
      var n := |citations| - 1;
      AddCitation(ResultDictOf(answer, citations[..n], target), n, citations[n])
  }

  /** The three insertions the loop makes for citation `i`. */
  function AddCitation(d: Columns, i: nat, c: CitationInfo): (r: Columns)
    requires d.Valid()
    ensures r.Valid()
  {
    Set(Set(Set(d, ContentKey(i), [c.content]), SourceKey(i), [c.source]), PageKey(i), [c.page])
  }

  /** Every cell of the record is a one-element list.  */
  predicate SingletonCells(d: Columns)
  {
    forall k :: k in d.entries ==> |d.entries[k]| == 1
  }

  /** The record always has the target column, and every cell is a one-element list. */
  lemma {:induction false} ResultDictCells(answer: string, citations: seq<CitationInfo>, target: string)
    ensures target in ResultDictOf(answer, citations, target).entries
    ensures SingletonCells(ResultDictOf(answer, citations, target))
    decreases |citations|
  {
    if citations != [] {
      var n := |citations| - 1;
      var d0 := ResultDictOf(answer, citations[..n], target);
      var d := AddCitation(d0, n, citations[n]);
      ResultDictCells(answer, citations[..n], target);
      AddCitationEntries(d0, n, citations[n]);
      forall k | k in d.entries
        ensures |d.entries[k]| == 1
      {
        if k != ContentKey(n) && k != SourceKey(n) && k != PageKey(n) {
          AddCitationKeeps(d0, n, citations[n], k);
        }
      }
      if target != ContentKey(n) && target != SourceKey(n) && target != PageKey(n) {
        AddCitationKeeps(d0, n, citations[n], target);
      }
    }
  }

  /** Citation i's content, source and page sit, as one-element lists, under
      CITATION_CONTENT_i, CITATION_SOURCE_i and CITATION_PAGE_i. */
  lemma {:induction false} ResultDictCitation(answer: string, citations: seq<CitationInfo>, target: string, i: nat)
    requires i < |citations|
    ensures var d := ResultDictOf(answer, citations, target);
      && ContentKey(i) in d.entries && d.entries[ContentKey(i)] == [citations[i].content]
      && SourceKey(i) in d.entries && d.entries[SourceKey(i)] == [citations[i].source]
      && PageKey(i) in d.entries && d.entries[PageKey(i)] == [citations[i].page]
    decreases |citations|
  {
    var n := |citations| - 1;
    var d0 := ResultDictOf(answer, citations[..n], target);
    AddCitationEntries(d0, n, citations[n]);
    if i < n {
      ResultDictCitation(answer, citations[..n], target, i);
      assert citations[..n][i] == citations[i];
      CitationKeysInjective(i, n);
      CitationKeysInjective(n, i);
      AddCitationKeeps(d0, n, citations[n], ContentKey(i));
      AddCitationKeeps(d0, n, citations[n], SourceKey(i));
      AddCitationKeeps(d0, n, citations[n], PageKey(i));
    }
  }

  /** Adding citation `n` stores its three fields. */
  lemma AddCitationEntries(d: Columns, n: nat, c: CitationInfo)
    requires d.Valid()
    ensures var r := AddCitation(d, n, c);
      && ContentKey(n) in r.entries && r.entries[ContentKey(n)] == [c.content]
      && SourceKey(n) in r.entries && r.entries[SourceKey(n)] == [c.source]
      && PageKey(n) in r.entries && r.entries[PageKey(n)] == [c.page]
  {
    CitationKeysInjective(n, n);
  }

  /** Adding citation `n` changes no column other than its three. */
  lemma AddCitationKeeps(d: Columns, n: nat, c: CitationInfo, k: string)
    requires d.Valid() && k != ContentKey(n) && k != SourceKey(n) && k != PageKey(n)
    ensures var r := AddCitation(d, n, c);
      (k in r.entries <==> k in d.entries) && (k in d.entries ==> r.entries[k] == d.entries[k])
  {
  }

  /** When the target is not a citation column name, the keys are the target
      followed by the citation columns, and the target holds the answer. */
  lemma {:induction false} ResultDictKeys(answer: string, citations: seq<CitationInfo>, target: string)
    requires target !in CitationKeys(|citations|)
    ensures ResultDictOf(answer, citations, target).keys == [target] + CitationKeys(|citations|)
    ensures ResultDictOf(answer, citations, target).entries[target] == [answer]
    decreases |citations|
  {
    if citations != [] {
      var n := |citations| - 1;
      assert CitationKeys(n) <= CitationKeys(n + 1);
      ResultDictKeys(answer, citations[..n], target);
      ResultDictKeysStep(answer, citations, target);
      ResultDictTargetStep(answer, citations, target);
    }
  }

  /** Adding a citation whose columns differ from the target keeps the answer. */
  lemma ResultDictTargetStep(answer: string, citations: seq<CitationInfo>, target: string)
    requires citations != [] && target !in CitationKeys(|citations|)
    requires GetOr(ResultDictOf(answer, citations[..|citations| - 1], target).entries, target, []) == [answer]
    ensures GetOr(ResultDictOf(answer, citations, target).entries, target, []) == [answer]
  {
    var n := |citations| - 1;
    assert CitationKeys(n + 1) == CitationKeys(n) + [ContentKey(n), SourceKey(n), PageKey(n)];
    AddCitationKeeps(ResultDictOf(answer, citations[..n], target), n, citations[n], target);
  }

  /** Three new distinct keys inserted in turn land at the end, in order. */
  lemma SetThreeNewKeys(d: Columns, k1: string, v1: seq<string>, k2: string, v2: seq<string>, k3: string, v3: seq<string>)
    requires d.Valid() && k1 !in d.entries && k2 !in d.entries && k3 !in d.entries
    requires k1 != k2 && k1 != k3 && k2 != k3
    ensures Set(Set(Set(d, k1, v1), k2, v2), k3, v3).keys == d.keys + [k1, k2, k3]
  {
    var d1 := Set(d, k1, v1);
    assert d1.keys == d.keys + [k1];
    var d2 := Set(d1, k2, v2);
    assert d2.keys == d.keys + [k1] + [k2];
    var d3 := Set(d2, k3, v3);
    assert d3.keys == d.keys + [k1] + [k2] + [k3];
  }

  /** One citation's three columns are appended after those already present. */
  lemma ResultDictKeysStep(answer: string, citations: seq<CitationInfo>, target: string)
    requires citations != [] && target !in CitationKeys(|citations|)
    requires ResultDictOf(answer, citations[..|citations| - 1], target).keys == [target] + CitationKeys(|citations| - 1)
    ensures ResultDictOf(answer, citations, target).keys == [target] + CitationKeys(|citations|)
  {
    var n := |citations| - 1;
    var d0 := ResultDictOf(answer, citations[..n], target);
    assert CitationKeys(n + 1) == CitationKeys(n) + [ContentKey(n), SourceKey(n), PageKey(n)];
    FreshCitationKeys(n);
    AddCitationKeys(d0, n, citations[n]);
    var added := [ContentKey(n), SourceKey(n), PageKey(n)];
    assert ResultDictOf(answer, citations, target).keys == ([target] + CitationKeys(n)) + added;
    AppendAssociative([target], CitationKeys(n), added);
  }

  /** Proved over an arbitrary element type, so that equal sequences of strings
      are not compared character by character. */
  lemma AppendAssociative<T>(a: seq<T>, b: seq<T>, c: seq<T>)
    ensures (a + b) + c == a + (b + c)
  {
  }

  /** Adding citation `n` to a record without its columns appends them, in order. */
  lemma AddCitationKeys(d: Columns, n: nat, c: CitationInfo)
    requires d.Valid() && ContentKey(n) !in d.entries && SourceKey(n) !in d.entries && PageKey(n) !in d.entries
    ensures AddCitation(d, n, c).keys == d.keys + [ContentKey(n), SourceKey(n), PageKey(n)]
  {
    CitationKeysInjective(n, n);
    SetThreeNewKeys(d, ContentKey(n), [c.content], SourceKey(n), [c.source], PageKey(n), [c.page]);
  }

  /** The target column name is never a citation column name. */
  lemma TargetIsNotACitationKey(n: nat)
    ensures Schema.TARGET_COLUMN_NAME !in CitationKeys(n)
  {
    CitationKeysInitial(n);
    assert Schema.TARGET_COLUMN_NAME[0] == 'r';
  }

  method CreateResultDict(answer: string, citations: seq<CitationInfo>, targetColumnName: string) returns (result: Columns)
    ensures result == ResultDictOf(answer, citations, targetColumnName)
    ensures result.Valid() && SingletonCells(result)
    ensures targetColumnName in result.entries
    ensures forall i :: 0 <= i < |citations| ==>
      && ContentKey(i) in result.entries && result.entries[ContentKey(i)] == [citations[i].content]
      && SourceKey(i) in result.entries && result.entries[SourceKey(i)] == [citations[i].source]
      && PageKey(i) in result.entries && result.entries[PageKey(i)] == [citations[i].page]
    ensures targetColumnName !in CitationKeys(|citations|) ==>
      result.keys == [targetColumnName] + CitationKeys(|citations|) && result.entries[targetColumnName] == [answer]
  {
    result := Set(Empty(), targetColumnName, [answer]);
    var i := 0;
    while i < |citations|
      invariant 0 <= i <= |citations|
      invariant result == ResultDictOf(answer, citations[..i], targetColumnName)
    {
      var citation := citations[i];
      assert citations[..i + 1][..i] == citations[..i];
      result := Set(result, ContentKey(i), [citation.content]);
      result := Set(result, SourceKey(i), [citation.source]);
      result := Set(result, PageKey(i), [citation.page]);
      i := i + 1;
    }
    assert citations[..i] == citations;
    ResultDictCells(answer, citations, targetColumnName);
    forall i | 0 <= i < |citations|
      ensures ContentKey(i) in result.entries && result.entries[ContentKey(i)] == [citations[i].content]
      ensures SourceKey(i) in result.entries && result.entries[SourceKey(i)] == [citations[i].source]
      ensures PageKey(i) in result.entries && result.entries[PageKey(i)] == [citations[i].page]
    {
      ResultDictCitation(answer, citations, targetColumnName, i);
    }
    if targetColumnName !in CitationKeys(|citations|) {
      ResultDictKeys(answer, citations, targetColumnName);
    }
  }

  // ---------------------------------------------------------------------------
  // merge_result_dicts
  // ---------------------------------------------------------------------------

  /** `if key not in final_result: final_result[key] = []`, then
      `final_result[key].extend(values)`. */
  function Extend(acc: Columns, key: string, values: seq<string>): (r: Columns)
    requires acc.Valid()
    ensures r.Valid()
  {
    var d := if key in acc.entries then acc else Set(acc, key, []);
    Set(d, key, d.entries[key] + values)
  }

  /** The inner loop over one result's keys `ks`. */
  function ExtendAll(acc: Columns, result: Columns, ks: seq<string>): (r: Columns)
    requires acc.Valid()
    requires forall k :: k in ks ==> k in result.entries
    ensures r.Valid()
    decreases |ks|
  {
    if ks == [] then acc
    else
      var n := |ks| - 1;
      Extend(ExtendAll(acc, result, ks[..n]), ks[n], result.entries[ks[n]])
  }

  ghost predicate AllValid(results: seq<Columns>)
  {
    forall i :: 0 <= i < |results| ==> results[i].Valid()
  }

  /** The dict `merge_result_dicts` returns, result after result. */
  function Merged(results: seq<Columns>): (r: Columns)
    requires AllValid(results)
    ensures r.Valid()
    decreases |results|
  {
    if results == [] then Empty()
    else
      var n := |results| - 1;
      ExtendAll(Merged(results[..n]), results[n], results[n].keys)
  }

  /** The keys of all results, result after result, each in its own order. */
  function AllKeys(results: seq<Columns>): seq<string>
    decreases |results|
  {
    if results == [] then [] else AllKeys(results[..|results| - 1]) + results[|results| - 1].keys
  }

  /** `s` with every repetition after an element's first occurrence removed. */
  function FirstAppearances(s: seq<string>): (r: seq<string>)
    ensures forall x :: x in r <==> x in s
    ensures forall i, j :: 0 <= i < j < |r| ==> r[i] != r[j]
    decreases |s|
  {
    if s == [] then []
    else
      var p := FirstAppearances(s[..|s| - 1]);
      if s[|s| - 1] in p then p else p + [s[|s| - 1]]
  }

  /** The values of `key` in the results that have it, concatenated in result order. */
  function Column(results: seq<Columns>, key: string): seq<string>
    decreases |results|
  {
    if results == [] then []
    else Column(results[..|results| - 1], key) + GetOr(results[|results| - 1].entries, key, [])
  }

  /** Dropping the last element of a concatenation, over an arbitrary element type. */
  lemma AppendDropLast<T>(a: seq<T>, b: seq<T>)
    requires b != []
    ensures (a + b)[..|a + b| - 1] == a + b[..|b| - 1]
    ensures (a + b)[|a + b| - 1] == b[|b| - 1]
  {
  }

  /** The inner loop lists each newly met key once, after the keys already present. */
  lemma {:induction false} ExtendAllKeys(acc: Columns, result: Columns, ks: seq<string>, seen: seq<string>)
    requires acc.Valid() && forall k :: k in ks ==> k in result.entries
    requires acc.keys == FirstAppearances(seen)
    ensures ExtendAll(acc, result, ks).keys == FirstAppearances(seen + ks)
    decreases |ks|
  {
    if ks == [] {
      assert seen + ks == seen;
    } else {
      var n := |ks| - 1;
      ExtendAllKeys(acc, result, ks[..n], seen);
      AppendDropLast(seen, ks);
    }
  }

  /** The inner loop appends, to each key's list, that key's values in the result
      when the key is among `ks` (each listed once), and nothing otherwise. */
  lemma {:induction false} ExtendAllValues(acc: Columns, result: Columns, ks: seq<string>, key: string)
    requires acc.Valid() && forall k :: k in ks ==> k in result.entries
    requires forall i, j :: 0 <= i < j < |ks| ==> ks[i] != ks[j]
    ensures key in ExtendAll(acc, result, ks).entries <==> key in acc.entries || key in ks
    ensures GetOr(ExtendAll(acc, result, ks).entries, key, [])
      == GetOr(acc.entries, key, []) + (if key in ks then result.entries[key] else [])
    decreases |ks|
  {
    var before := GetOr(acc.entries, key, []);
    if ks == [] {
      assert before + [] == before;
    } else {
      var n := |ks| - 1;
      ExtendAllValues(acc, result, ks[..n], key);
      var e := ExtendAll(acc, result, ks[..n]);
      if key == ks[n] {
        assert key !in ks[..n];
        assert GetOr(e.entries, key, []) == before + [];
        assert before + [] == before;
      } else {
        assert key in ks <==> key in ks[..n];
        if key in ks[..n] {
          assert GetOr(e.entries, key, []) == before + result.entries[key];
        } else {
          assert GetOr(e.entries, key, []) == before + [];
          assert before + [] == before;
        }
      }
    }
  }

  /** The merged keys are the keys of all results in order of first appearance. */
  lemma {:induction false} MergedKeys(results: seq<Columns>)
    requires AllValid(results)
    ensures Merged(results).keys == FirstAppearances(AllKeys(results))
    decreases |results|
  {
    if results != [] {
      var n := |results| - 1;
      MergedKeys(results[..n]);
      ExtendAllKeys(Merged(results[..n]), results[n], results[n].keys, AllKeys(results[..n]));
    }
  }

  /** Each merged column is the concatenation of that key's lists over the
      results that have it; a key is merged exactly when some result has it. */
  lemma {:induction false} MergedColumn(results: seq<Columns>, key: string)
    requires AllValid(results)
    ensures key in Merged(results).entries <==> key in AllKeys(results)
    ensures GetOr(Merged(results).entries, key, []) == Column(results, key)
    decreases |results|
  {
    if results != [] {
      var n := |results| - 1;
      var last := results[n];
      MergedColumn(results[..n], key);
      ExtendAllValues(Merged(results[..n]), last, last.keys, key);
      assert key in last.keys <==> key in last.entries;
    }
  }

  method MergeResultDicts(results: seq<Columns>) returns (finalResult: Columns)
    requires AllValid(results)
    ensures finalResult == Merged(results)
    ensures finalResult.Valid()
    ensures finalResult.keys == FirstAppearances(AllKeys(results))
    ensures forall key :: key in finalResult.entries <==> key in AllKeys(results)
    ensures forall key :: key in finalResult.entries ==> finalResult.entries[key] == Column(results, key)
  {
    finalResult := Empty();
    var i := 0;
    while i < |results|
      invariant 0 <= i <= |results|
      invariant finalResult == Merged(results[..i])
    {
      var result := results[i];
      assert results[..i + 1][..i] == results[..i];
      var j := 0;
      while j < |result.keys|
        invariant 0 <= j <= |result.keys|
        invariant finalResult == ExtendAll(Merged(results[..i]), result, result.keys[..j])
      {
        var key := result.keys[j];
        assert result.keys[..j + 1][..j] == result.keys[..j];
        if key !in finalResult.entries {
          finalResult := Set(finalResult, key, []);
        }
        finalResult := Set(finalResult, key, finalResult.entries[key] + result.entries[key]);
        j := j + 1;
      }
      assert result.keys[..j] == result.keys;
      i := i + 1;
    }
    assert results[..i] == results;
    MergedKeys(results);
    forall key
      ensures key in finalResult.entries <==> key in AllKeys(results)
      ensures key in finalResult.entries ==> finalResult.entries[key] == Column(results, key)
    {
      MergedColumn(results, key);
    }
  }

  /** The number of results that have `key`. */
  function CountWith(results: seq<Columns>, key: string): (n: nat)
    ensures n <= |results|
    decreases |results|
  {
    if results == [] then 0
    else CountWith(results[..|results| - 1], key) + (if key in results[|results| - 1].entries then 1 else 0)
  }

  /** A key is counted in every result exactly when every result has it. */
  lemma {:induction false} CountWithAll(results: seq<Columns>, key: string)
    ensures CountWith(results, key) == |results| <==> forall i :: 0 <= i < |results| ==> key in results[i].entries
    decreases |results|
  {
    if results != [] {
      var n := |results| - 1;
      CountWithAll(results[..n], key);
      assert forall i :: 0 <= i < n ==> results[..n][i] == results[i];
    }
  }

  /** A key of any result is among the keys of all results. */
  lemma {:induction false} InAllKeys(results: seq<Columns>, key: string, j: nat)
    requires j < |results| && key in results[j].keys
    ensures key in AllKeys(results)
    decreases |results|
  {
    var n := |results| - 1;
    if j < n {
      assert results[..n][j] == results[j];
      InAllKeys(results[..n], key, j);
    }
  }

  /** With one cell per key and result, as `create_result_dict` and the error
      record produce, a merged column has one entry per result that has its key. */
  lemma {:induction false} ColumnLength(results: seq<Columns>, key: string)
    requires forall i :: 0 <= i < |results| ==> SingletonCells(results[i])
    ensures |Column(results, key)| == CountWith(results, key)
    decreases |results|
  {
    if results != [] {
      var n := |results| - 1;
      assert SingletonCells(results[n]);
      ColumnLength(results[..n], key);
    }
  }

  // ---------------------------------------------------------------------------
  // process_single_row
  // ---------------------------------------------------------------------------

  /** The record `{target: [trace]}` returned when processing a row raised. */
  function ErrorRow(target: string, trace: string): (d: Columns)
    ensures d.Valid() && d.keys == [target] && d.entries == map[target := [trace]]
  {
    Set(Empty(), target, [trace])
  }

  /** The answer and citations of one row, or what the `try` block raised: the
      chain's own exception, or the hard lookup of `answer`. */
  function RowOutcome(question: string, chatHistory: seq<Turn>, chain: Chain): (r: Result<(string, seq<CitationInfo>), Exception>)
    ensures var out := chain(ChainInput(question, chatHistory));
      && (out.Err? ==> r == Err(out.error))
      && (out.Ok? && out.value.answer.None? ==> r == Err(KeyError("answer")))
      && (out.Ok? && out.value.answer.Some? ==>
            r.Ok? && r.value.0 == out.value.answer.value && |r.value.1| == |out.value.context.GetOr([])|
            && forall i :: 0 <= i < |r.value.1| ==> r.value.1[i].content == out.value.context.value[i].pageContent)
  {
    var out :- chain(ChainInput(question, chatHistory));
    if out.answer.None? then Err(KeyError("answer")) else Ok((out.answer.value, Citations(out)))
  }

  /** The record `process_single_row` returns; `formatExc` renders the caught
      exception the way `traceback.format_exc` does. */
  function RowResult(question: string, chatHistory: seq<Turn>, chain: Chain, target: string,
                     formatExc: Exception -> string): (d: Columns)
    ensures d.Valid()
  {
    match RowOutcome(question, chatHistory, chain)
    case Ok((answer, citations)) => ResultDictOf(answer, citations, target)
    case Err(e) => ErrorRow(target, formatExc(e))
  }

  /** Every row record, failed or not, has the target column with one cell, and
      every other column has one cell too. */
  lemma RowResultCells(question: string, chatHistory: seq<Turn>, chain: Chain, target: string,
                       formatExc: Exception -> string)
    ensures var d := RowResult(question, chatHistory, chain, target, formatExc);
      target in d.entries && SingletonCells(d)
  {
    match RowOutcome(question, chatHistory, chain)
    case Ok((answer, citations)) => ResultDictCells(answer, citations, target);
    case Err(e) =>
  }

  method ProcessSingleRow(question: string, chatHistory: seq<Turn>, chain: Chain, targetColumnName: string,
                          formatExc: Exception -> string) returns (row: Columns)
    ensures row == RowResult(question, chatHistory, chain, targetColumnName, formatExc)
    ensures row.Valid() && SingletonCells(row) && targetColumnName in row.entries
    ensures var outcome := chain(ChainInput(question, chatHistory));
      && (outcome.Err? ==>
            row.keys == [targetColumnName] && row.entries == map[targetColumnName := [formatExc(outcome.error)]])
      && (outcome.Ok? && outcome.value.answer.None? ==>
            row.keys == [targetColumnName] && row.entries == map[targetColumnName := [formatExc(KeyError("answer"))]])
      && (outcome.Ok? && outcome.value.answer.Some? ==>
            row == ResultDictOf(outcome.value.answer.value, Citations(outcome.value), targetColumnName))
  {
    var outcome := chain(ChainInput(question, chatHistory));
    if outcome.Err? {
      row := ErrorRow(targetColumnName, formatExc(outcome.error));
    } else {
      var chainOutput := outcome.value;
      var citations := ProcessCitations(chainOutput);
      if chainOutput.answer.None? {
        row := ErrorRow(targetColumnName, formatExc(KeyError("answer")));
      } else {
        row := CreateResultDict(chainOutput.answer.value, citations, targetColumnName);
      }
    }
    RowResultCells(question, chatHistory, chain, targetColumnName, formatExc);
  }

  // ---------------------------------------------------------------------------
  // create_chat_completion
  // ---------------------------------------------------------------------------

  datatype ChatMessage = ChatMessage(role: string, content: string)

  datatype Choice = Choice(finishReason: string, index: nat, message: ChatMessage)

  /** One entry of the completion's `citations` extension. */
  datatype Reference = Reference(content: string, link: string, metadata: map<string, string>)

  /** The OpenAI `ChatCompletion` object plus its `citations` attribute; the
      `id` field is not part of this model. */
  datatype ChatCompletion = ChatCompletion(
    choices: seq<Choice>,
    created: int,
    model: string,
    objectType: string,   // the `object` field
    systemFingerprint: Option<string>,
    citations: seq<Reference>)

  /** `{content, link, metadata}` per document, with `link` a hard lookup of the
      document's `source`. */
  function References(docs: seq<Document>): (r: Result<seq<Reference>, Exception>)
    ensures r.Ok? <==> forall i :: 0 <= i < |docs| ==> "source" in docs[i].metadata
    ensures r.Err? ==> r.error == KeyError("source")
    ensures r.Ok? ==> |r.value| == |docs| && forall i :: 0 <= i < |docs| ==>
      r.value[i] == Reference(docs[i].pageContent, docs[i].metadata["source"], docs[i].metadata)
    decreases |docs|
  {
    if docs == [] then Ok([])
    else
      var n := |docs| - 1;
      var refs :- References(docs[..n]);
      if "source" !in docs[n].metadata then Err(KeyError("source"))
      else Ok(refs + [Reference(docs[n].pageContent, docs[n].metadata["source"], docs[n].metadata)])
  }

  /** The completion for `response`; `now` stands for `int(time.time())`. A
      missing model name is rejected by the completion's validation, a
      document without `source` by the citation lookup. */
  function CreateChatCompletion(response: string, modelName: Option<string>, citations: seq<Document>,
                                createdTime: Option<int>, now: int): (r: Result<ChatCompletion, Exception>)
    ensures r.Ok? <==> modelName.Some? && forall i :: 0 <= i < |citations| ==> "source" in citations[i].metadata
    ensures modelName.None? ==> r == Err(ValidationError("model"))
    ensures modelName.Some? && r.Err? ==> r.error == KeyError("source")
    ensures r.Ok? ==>
      && r.value.choices == [Choice("stop", 0, ChatMessage("assistant", response))]
      && r.value.created == (if createdTime.Some? then createdTime.value else now)
      && r.value.model == modelName.value
      && r.value.objectType == "chat.completion"
      && r.value.systemFingerprint == None
      && |r.value.citations| == |citations|
      && forall i :: 0 <= i < |citations| ==>
           && r.value.citations[i].content == citations[i].pageContent
           && r.value.citations[i].link == citations[i].metadata["source"]
           && r.value.citations[i].metadata == citations[i].metadata
  {
    if modelName.None? then Err(ValidationError("model"))
    else
      var refs :- References(citations);
      Ok(ChatCompletion([Choice("stop", 0, ChatMessage("assistant", response))],
                        createdTime.GetOr(now), modelName.value, "chat.completion", None, refs))
  }

  /** The completion's citations and the scoring path's citations describe the
      same documents in the same order: same content, and the completion's link
      is the source `process_citations` reports (never its `""` default). */
  lemma CompletionCitationsAgree(response: string, modelName: Option<string>, chainOutput: ChainOutput,
                                 createdTime: Option<int>, now: int)
    requires chainOutput.context.Some?
    ensures var r := CreateChatCompletion(response, modelName, chainOutput.context.value, createdTime, now);
      r.Ok? ==> |r.value.citations| == |Citations(chainOutput)| && forall i :: 0 <= i < |Citations(chainOutput)| ==>
        && r.value.citations[i].content == Citations(chainOutput)[i].content
        && r.value.citations[i].link == Citations(chainOutput)[i].source
  {
  }
}
