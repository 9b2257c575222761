/**
 * Step 1 (tools/topics_extraction.py): one chat-model call per survey row, the clean-up of
 * its reply, and the six columns added to the dataset.
 */
module TopicsExtraction {
  import opened Wrappers
  import opened Text
  import opened Seqs
  import opened Survey

  const TopicsColumn := "all_topics_discussed"
  const QuoteColumn := "supporting_quote"
  const ReasonColumn := "ai_topic_reasoning"
  const SentimentColumn := "customer_sentiment"
  const ProcessTimeColumn := "process_time"
  const ModelVersionColumn := "model_version"

  const MaxTopics := 5
  const MaxQuoteLength := 160
  const DefaultSentiment := "Neutral"

  /**
   * The parsed JSON reply of the chat model. `topics` holds `str(t)` of every entry of the
   * reply's `topics` array, or is empty when the key is absent; a string field is None when
   * its key is absent or null.
   */
  datatype TopicReply = TopicReply(
    topics: seq<string>,
    supportingQuote: Option<string>,
    reason: Option<string>,
    sentiment: Option<string>)

  /** What `json.loads("{}")` yields. */
  const EmptyReply := TopicReply([], None, None, None)

  /** The four extracted values stored for one row. */
  datatype Extracted = Extracted(topics: seq<string>, quote: string, reason: string, sentiment: string)

  /** The reply text: a non-string content is replaced by "{}". */
  function ReplyContent(content: Option<string>): string {
    match content
    case Some(s) => s
    case None => "{}"
  }

  /** `content[7:]` when the reply opens with "```json". */
  function DropJsonFence(s: string): (r: string)
    ensures |r| <= |s| && r == s[|s| - |r|..]
  {
    if StartsWith(s, "```json") then s[7..] else s
  }

  /** `content[3:]` when what is left opens with "```". */
  function DropOpenFence(s: string): (r: string)
    ensures |r| <= |s| && r == s[|s| - |r|..]
  {
    if StartsWith(s, "```") then s[3..] else s
  }

  /** `content[:-3]` when what is left ends with "```". */
  function DropCloseFence(s: string): (r: string)
    ensures |r| <= |s| && r == s[..|r|]
  {
    if EndsWith(s, "```") then s[..|s| - 3] else s
  }

  /**
   * The clean-up of the reply before parsing: strip, drop a leading "```json", then a leading
   * "```", then a trailing "```", and strip again.
   */
  function StripFences(content: string): (r: string)
    ensures Trimmed(r)
  {
    Strip(DropCloseFence(DropOpenFence(DropJsonFence(Strip(content)))))
  }

  /** A reply whose stripped text neither opens nor closes with "```" is only stripped. */
  lemma StripFencesNoFence(content: string)
    requires !StartsWith(Strip(content), "```") && !EndsWith(Strip(content), "```")
    ensures StripFences(content) == Strip(content)
  {
    var c0 := Strip(content);
    assert !StartsWith(c0, "```json") by {
      if |c0| >= 7 { assert c0[..3] == c0[..7][..3]; }
    }
    StripTrimmed(c0);
  }

  /** Fence stripping only ever cuts characters off the two ends of the reply. */
  lemma StripFencesWithin(content: string)
    ensures exists i, j :: 0 <= i <= j <= |content| && StripFences(content) == content[i..j]
  {
    var c0 := Strip(content);
    var c1 := DropJsonFence(c0);
    var c2 := DropOpenFence(c1);
    var c3 := DropCloseFence(c2);
    CutsWithin(content, StripStart(content), StripEnd(content), c0, c1, c2, c3, StripStart(c3), StripEnd(c3), Strip(c3));
  }

  /** A chain of cuts: a slice, two suffixes, a prefix and a slice is a slice of the original. */
  lemma CutsWithin(s: string, i0: nat, j0: nat, c0: string, c1: string, c2: string, c3: string, k: nat, l: nat, r: string)
    requires i0 <= j0 <= |s| && c0 == s[i0..j0]
    requires |c1| <= |c0| && c1 == c0[|c0| - |c1|..]
    requires |c2| <= |c1| && c2 == c1[|c1| - |c2|..]
    requires |c3| <= |c2| && c3 == c2[..|c3|]
    requires k <= l <= |c3| && r == c3[k..l]
    ensures exists i, j :: 0 <= i <= j <= |s| && r == s[i..j]
  {
    var d1, d2 := |c0| - |c1|, |c1| - |c2|;
    var i := i0 + d1 + d2 + k;
    forall n | 0 <= n < |r|
      ensures r[n] == s[i + n]
    {
      calc {
        r[n];
        c3[k + n];
        c2[k + n];
        c1[d2 + k + n];
        c0[d1 + d2 + k + n];
        s[i0 + d1 + d2 + k + n];
      }
    }
    assert r == s[i..i + |r|];
  }

  /**
   * A "```json" fence around a reply body is removed and the body is stripped. A body that
   * itself opens with a backquote is left out: the second cut would eat into it.
   */
  lemma JsonFenceRemoved(body: string)
    requires body == [] || body[0] != '`'
    ensures StripFences("```json" + body + "```") == Strip(body)
  {
    var close := body + "```";
    var s := "```json" + close;
    assert "```json" + body + "```" == s;
    assert s[0] == '`' && s[|s| - 1] == '`';
    StripTrimmed(s);
    assert s[..7] == "```json" && s[7..] == close;
    assert DropJsonFence(s) == close;
    CloseFenceRemoved(body);
  }

  /** A plain "```" fence around a reply body is removed and the body is stripped. */
  lemma PlainFenceRemoved(body: string)
    requires !StartsWith(body, "json")
    ensures StripFences("```" + body + "```") == Strip(body)
  {
    var close := body + "```";
    var s := "```" + close;
    assert "```" + body + "```" == s;
    assert s[0] == '`' && s[|s| - 1] == '`';
    StripTrimmed(s);
    NoJsonFence(body);
    OpenFenceDropped(close);
    CloseFenceDropped(body);
  }

  /** A fenced JSON reply as the chat model usually writes it. */
  lemma JsonFenceExample()
    ensures StripFences("```json\n{}\n```") == "{}"
  {
    var body, reply := "\n{}\n", "```json\n{}\n```";
    assert reply[..7] == "```json" && reply[7..11] == body && reply[11..] == "```";
    assert reply == reply[..7] + reply[7..11] + reply[11..];
    JsonFenceRemoved(body);
    NewlinesStripped();
  }

  lemma NewlinesStripped()
    ensures Strip("\n{}\n") == "{}"
  {
    var body := "\n{}\n";
    assert SkipSpace(body, 1) == 1;
    assert SkipSpaceBack(body, 1, 3) == 3;
    assert body[1..3] == "{}";
  }

  /** An opening "```" that is not "```json" is dropped by the second cut only. */
  lemma OpenFenceDropped(close: string)
    requires !StartsWith("```" + close, "```json")
    ensures DropOpenFence(DropJsonFence("```" + close)) == close
  {
    var s := "```" + close;
    assert s[..3] == "```" && s[3..] == close;
  }

  /** A plain fence whose body does not start with "json" is not a "```json" fence. */
  lemma NoJsonFence(body: string)
    requires !StartsWith(body, "json")
    ensures !StartsWith("```" + body + "```", "```json")
  {
    var s := "```" + body + "```";
    if |body| >= 4 {
      assert s[..7][3..] == body[..4];
    } else if |s| >= 7 {
      assert s[..7][3 + |body|] == '`';
    }
  }

  /** What is left of a "```json" reply once "json" is gone: the last two cuts give the body back. */
  lemma CloseFenceRemoved(body: string)
    requires body == [] || body[0] != '`'
    ensures DropCloseFence(DropOpenFence(body + "```")) == body
  {
    var close := body + "```";
    if body == [] {
      assert close == "```";
      assert DropOpenFence(close) == [];
    } else {
      assert close[0] == body[0];
      assert DropOpenFence(close) == close;
      CloseFenceDropped(body);
    }
  }

  /** The trailing "```" is cut off. */
  lemma CloseFenceDropped(body: string)
    ensures DropCloseFence(body + "```") == body
  {
    var close := body + "```";
    assert close[..|body|] == body && close[|body|..] == "```";
  }

  /** `[str(t).strip() for t in raw if str(t).strip()]`: stripped, non-empty, in order. */
  function CleanTopics(raw: seq<string>): seq<string> {
    if raw == [] then []
    else
      var t := Strip(raw[0]);
      var rest := CleanTopics(raw[1..]);
      if t == [] then rest else [t] + rest
  }

  /**
   * The cleaned topics are exactly the non-empty stripped entries of the raw list, each
   * non-empty and without whitespace at either end, and there are no more of them.
   */
  lemma {:induction false} CleanTopicsMeaning(raw: seq<string>)
    ensures |CleanTopics(raw)| <= |raw|
    ensures forall k :: 0 <= k < |CleanTopics(raw)| ==> CleanTopics(raw)[k] != [] && Trimmed(CleanTopics(raw)[k])
    ensures forall x :: x in CleanTopics(raw) <==> x != [] && exists t :: t in raw && Strip(t) == x
  {
    if raw != [] {
      CleanTopicsMeaning(raw[1..]);
      assert forall u :: u in raw <==> u == raw[0] || u in raw[1..];
    }
  }

  /**
   * The stored topic list: the cleaned topics with duplicates removed (first occurrence
   * kept) and at most MaxTopics of them.
   */
  function NormaliseTopics(raw: seq<string>): seq<string> {
    var d := Dedup(CleanTopics(raw));
    if |d| <= MaxTopics then d else d[..MaxTopics]
  }

  /**
   * The stored topics are distinct, non-empty, stripped entries of the raw list, at most
   * MaxTopics of them: the first ones of the cleaned list in order of first occurrence.
   */
  lemma NormaliseTopicsMeaning(raw: seq<string>)
    ensures |NormaliseTopics(raw)| <= MaxTopics
    ensures Distinct(NormaliseTopics(raw))
    ensures forall x :: x in NormaliseTopics(raw) ==> x != [] && Trimmed(x) && exists t :: t in raw && Strip(t) == x
    ensures NormaliseTopics(raw) <= Dedup(CleanTopics(raw))
    ensures |NormaliseTopics(raw)| == Min(|Dedup(CleanTopics(raw))|, MaxTopics)
    ensures forall x :: x in CleanTopics(raw) && |Elems(CleanTopics(raw))| <= MaxTopics ==> x in NormaliseTopics(raw)
  {
    var c := CleanTopics(raw);
    var d := Dedup(c);
    var r := NormaliseTopics(raw);
    CleanTopicsMeaning(raw);
    DedupMeaning(c);
    assert forall k :: 0 <= k < |r| ==> r[k] == d[k];
    forall x | x in r
      ensures x != [] && Trimmed(x) && exists t :: t in raw && Strip(t) == x
    {
      assert x in d;
      var k := FirstIndexIn(c, x);
    }
    if |Elems(c)| <= MaxTopics {
      DistinctCard(d);
      assert Elems(d) == Elems(c);
    }
  }

  /** `(quote or "")[:160]`. */
  function QuoteOf(quote: Option<string>): (r: string)
    ensures |r| <= MaxQuoteLength
    ensures quote.None? ==> r == ""
    ensures quote.Some? ==> r <= quote.value && |r| == Min(|quote.value|, MaxQuoteLength)
  {
    match quote
    case None => ""
    case Some(q) => if |q| <= MaxQuoteLength then q else q[..MaxQuoteLength]
  }

  /** `reason or ""`. */
  function ReasonOf(reason: Option<string>): (r: string)
    ensures reason.None? ==> r == ""
    ensures reason.Some? ==> r == reason.value
  {
    match reason
    case None => ""
    case Some(s) => s
  }

  /** `sentiment or "Neutral"`: an empty string is falsy too. */
  function SentimentOf(sentiment: Option<string>): (r: string)
    ensures r != []
    ensures sentiment.None? || sentiment == Some("") ==> r == DefaultSentiment
    ensures sentiment.Some? && sentiment.value != "" ==> r == sentiment.value
  {
    match sentiment
    case Some(s) => if s == "" then DefaultSentiment else s
    case None => DefaultSentiment
  }

  /** The four values stored for a row whose reply parsed to `reply`. */
  function Extract(reply: TopicReply): Extracted {
    Extracted(NormaliseTopics(reply.topics), QuoteOf(reply.supportingQuote), ReasonOf(reply.reason), SentimentOf(reply.sentiment))
  }

  /** `str(row.get(text_column, ""))`. */
  function TextOf(record: Record, textColumn: string): string {
    if textColumn in record then record[textColumn] else ""
  }

  /**
   * The parsed reply for one row: the chat model's content for the row's text (None when it
   * is not a string), fence-stripped, then given to the JSON parser (None when it fails).
   */
  function RowReply(record: Record, textColumn: string, chat: string -> Option<string>, parse: string -> Option<TopicReply>): Option<TopicReply> {
    parse(StripFences(ReplyContent(chat(TextOf(record, textColumn)))))
  }

  /**
   * The output row: the input columns, the topic list in its own field, and the five other
   * added columns (each overwriting a column of that name).
   */
  function Annotate(record: Record, e: Extracted, processTime: string, modelVersion: string): (row: Row)
    ensures row.topics == e.topics
    ensures row.attrs.Keys == record.Keys - {TopicsColumn} + {QuoteColumn, ReasonColumn, SentimentColumn, ProcessTimeColumn, ModelVersionColumn}
    ensures row.attrs[QuoteColumn] == e.quote && row.attrs[ReasonColumn] == e.reason && row.attrs[SentimentColumn] == e.sentiment
    ensures row.attrs[ProcessTimeColumn] == processTime && row.attrs[ModelVersionColumn] == modelVersion
    ensures forall c :: c in record && c !in {TopicsColumn, QuoteColumn, ReasonColumn, SentimentColumn, ProcessTimeColumn, ModelVersionColumn} ==> row.attrs[c] == record[c]
  {
    var attrs := (record - {TopicsColumn})[QuoteColumn := e.quote][ReasonColumn := e.reason][SentimentColumn := e.sentiment]
                 [ProcessTimeColumn := processTime][ModelVersionColumn := modelVersion];
    Row(attrs, e.topics)
  }

  datatype ExtractionError = ReplyNotJson(row: nat)

  /** What the tool reports: the enriched rows and their number. */
  datatype ExtractionOutput = ExtractionOutput(rows: seq<Row>, rowCount: nat)

  /** The per-row step with the chat model and the parser fixed: a row's parsed reply. */
  function RowReplies(textColumn: string, chat: string -> Option<string>, parse: string -> Option<TopicReply>): Record -> Option<TopicReply> {
    record => RowReply(record, textColumn, chat, parse)
  }

  /**
   * The parsed replies of the rows, row after row, or the index of the first row whose reply
   * does not parse (json.loads raises there and the run stops).
   */
  function ParsedReplies(records: seq<Record>, reply: Record -> Option<TopicReply>): Result<seq<TopicReply>, nat>
    decreases |records|
  {
    if records == [] then Ok([])
    else
      var n := |records| - 1;
      match ParsedReplies(records[..n], reply)
      case Err(k) => Err(k)
      case Ok(rs) =>
        match reply(records[n])
        case None => Err(n)
        case Some(data) => Ok(rs + [data])
  }

  /** Once a row has failed, the rows after it do not change the outcome. */
  lemma {:induction false} ParsedRepliesKeepError(records: seq<Record>, n: nat, reply: Record -> Option<TopicReply>)
    requires n <= |records| && ParsedReplies(records[..n], reply).Err?
    ensures ParsedReplies(records, reply) == ParsedReplies(records[..n], reply)
    decreases |records|
  {
    if n < |records| {
      var m := |records| - 1;
      assert records[..m][..n] == records[..n];
      ParsedRepliesKeepError(records[..m], n, reply);
    } else {
      assert records[..n] == records;
    }
  }

  /**
   * The run gets past every row exactly when every row's reply parses; it then holds each
   * row's reply in row order, and otherwise names the first row whose reply does not parse.
   */
  lemma {:induction false} ParsedRepliesMeaning(records: seq<Record>, reply: Record -> Option<TopicReply>)
    ensures ParsedReplies(records, reply).Ok? <==> forall k :: 0 <= k < |records| ==> reply(records[k]).Some?
    ensures ParsedReplies(records, reply).Ok? ==> var rs := ParsedReplies(records, reply).value;
      |rs| == |records| && forall k :: 0 <= k < |records| ==> reply(records[k]) == Some(rs[k])
    ensures ParsedReplies(records, reply).Err? ==> var n := ParsedReplies(records, reply).error;
      n < |records| && reply(records[n]).None? && forall k :: 0 <= k < n ==> reply(records[k]).Some?
    decreases |records|
  {
    if records != [] {
      var n := |records| - 1;
      var prefix := records[..n];
      ParsedRepliesMeaning(prefix, reply);
      assert forall k :: 0 <= k < n ==> prefix[k] == records[k];
    }
  }

  /**
   * The tool: every row goes through the chat model and the reply clean-up, in row order; the
   * output rows carry the extracted columns, the row's time stamp and the model name.
   */
  method TopicExtraction(records: seq<Record>, textColumn: string, chat: string -> Option<string>,
                         parse: string -> Option<TopicReply>, clock: nat -> string, modelVersion: string)
    returns (res: Result<ExtractionOutput, ExtractionError>)
    ensures res.Err? ==> ParsedReplies(records, RowReplies(textColumn, chat, parse)) == Err(res.error.row)
    ensures res.Ok? ==> ParsedReplies(records, RowReplies(textColumn, chat, parse)).Ok?
    ensures res.Ok? ==> var rs := ParsedReplies(records, RowReplies(textColumn, chat, parse)).value;
      res.value.rowCount == |res.value.rows| == |records| == |rs| &&
      forall k :: 0 <= k < |records| ==> res.value.rows[k] == Annotate(records[k], Extract(rs[k]), clock(k), modelVersion)
  {
    res := ExtractRows(records, RowReplies(textColumn, chat, parse), clock, modelVersion);
  }

  /**
   * The per-row loop: take each row's parsed reply and append its values to the six column
   * lists; a reply that does not parse aborts the run. Then the columns are added to the rows.
   */
  method ExtractRows(records: seq<Record>, reply: Record -> Option<TopicReply>, clock: nat -> string, modelVersion: string)
    returns (res: Result<ExtractionOutput, ExtractionError>)
    ensures res.Err? ==> ParsedReplies(records, reply) == Err(res.error.row)
    ensures res.Ok? ==> ParsedReplies(records, reply).Ok?
    ensures res.Ok? ==> var rs := ParsedReplies(records, reply).value;
      res.value.rowCount == |res.value.rows| == |records| == |rs| &&
      forall k :: 0 <= k < |records| ==> res.value.rows[k] == Annotate(records[k], Extract(rs[k]), clock(k), modelVersion)
  {
    var topicsList: seq<seq<string>> := [];
    var quotes: seq<string> := [];
    var reasons: seq<string> := [];
    var sentiments: seq<string> := [];
    var processTimes: seq<string> := [];
    var modelVersions: seq<string> := [];
    ghost var rs: seq<TopicReply> := [];
    var i := 0;
    while i < |records|
      invariant 0 <= i <= |records|
      invariant ParsedReplies(records[..i], reply) == Ok(rs)
      invariant |rs| == |topicsList| == |quotes| == |reasons| == |sentiments| == |processTimes| == |modelVersions| == i
      invariant forall k :: 0 <= k < i ==>
        Extract(rs[k]) == Extracted(topicsList[k], quotes[k], reasons[k], sentiments[k])
      invariant forall k :: 0 <= k < i ==> processTimes[k] == clock(k) && modelVersions[k] == modelVersion
    {
      assert records[..i + 1][..i] == records[..i];
      var data := reply(records[i]);
      if data.None? {
        ParsedRepliesKeepError(records, i + 1, reply);
        return Err(ReplyNotJson(i));
      }
      var e := Extract(data.value);
      topicsList := topicsList + [e.topics];
      quotes := quotes + [e.quote];
      reasons := reasons + [e.reason];
      sentiments := sentiments + [e.sentiment];
      processTimes := processTimes + [clock(i)];
      modelVersions := modelVersions + [modelVersion];
      rs := rs + [data.value];
      i := i + 1;
    }
    assert records[..i] == records;
    assert ParsedReplies(records, reply) == Ok(rs);
    var rows := AddColumns(records, topicsList, quotes, reasons, sentiments, processTimes, modelVersions);
    res := Ok(ExtractionOutput(rows, |records|));
  }

  /** The six `df[...] = list` assignments: each column list becomes a column, row k taking entry k. */
  function AddColumns(records: seq<Record>, topicsList: seq<seq<string>>, quotes: seq<string>, reasons: seq<string>,
                      sentiments: seq<string>, processTimes: seq<string>, modelVersions: seq<string>): (rows: seq<Row>)
    requires |topicsList| == |quotes| == |reasons| == |sentiments| == |processTimes| == |modelVersions| == |records|
    ensures |rows| == |records|
    ensures forall k :: 0 <= k < |records| ==>
      rows[k] == Annotate(records[k], Extracted(topicsList[k], quotes[k], reasons[k], sentiments[k]), processTimes[k], modelVersions[k])
  {
    seq(|records|, k requires 0 <= k < |records| =>
      Annotate(records[k], Extracted(topicsList[k], quotes[k], reasons[k], sentiments[k]), processTimes[k], modelVersions[k]))
  }

  /** A reply that is not a string is read as "{}", so the row gets every default. */
  lemma NonTextReplyDefaults(record: Record, textColumn: string, chat: string -> Option<string>, parse: string -> Option<TopicReply>)
    requires chat(TextOf(record, textColumn)).None?
    requires parse("{}") == Some(EmptyReply)
    ensures RowReply(record, textColumn, chat, parse) == Some(EmptyReply)
    ensures Extract(EmptyReply) == Extracted([], "", "", DefaultSentiment)
  {
    EmptyObjectKept();
  }

  /** The clean-up leaves "{}" as it is. */
  lemma EmptyObjectKept()
    ensures StripFences("{}") == "{}"
  {
    var c := "{}";
    assert Trimmed(c);
    StripTrimmed(c);
    assert !StartsWith(c, "```") && !EndsWith(c, "```");
    StripFencesNoFence(c);
  }
}
