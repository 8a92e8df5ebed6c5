/**
 * `parseAndStoreStoryData` of `src/utils/storyDataParser.js`: the strict
 * reader of the story workflow's "new format", in which the response holds a
 * field `data` whose value is itself JSON text with a `title` and an
 * `output` list of questions, each with a `selection_list`.
 *
 * The function never throws. Anything it cannot read becomes a list of one
 * placeholder question with a single "retry" selection, and whatever it
 * returns is also written to `localStorage` under `storyQuestions`. The
 * writes are returned as a record instead of touching a store.
 */
module StoryParser {
  import opened Wrappers
  import opened JsString
  import opened Json

  const RetryText: string := "重试"
  const RetryFeedback: string := "请重新尝试"
  const UnsupportedQuestion: string := "数据格式不受支持，请提供正确的故事练习数据。"
  const ParseErrorPrefix: string := "解析数据时出错: "

  /** `{text, feedback}`, a selection as the pages store it. */
  function Selection(text: Option<Json>, feedback: Option<Json>): Json {
    Record([("text", text), ("feedback", feedback)])
  }

  /** `[{ id: 0, question, selections: [{ text: "重试", feedback: "请重新尝试" }] }]`:
      the single question every fallback path stores. */
  function Placeholder(question: string): (r: seq<Json>)
    ensures |r| == 1
    ensures Get(r[0], "id") == Some(JNum(0))
    ensures Get(r[0], "question") == Some(JStr(question))
    ensures Get(r[0], "selections").Some? && RetryOnly(Get(r[0], "selections").value)
  {
    var retry := Selection(Some(JStr(RetryText)), Some(JStr(RetryFeedback)));
    var entries := [("id", Some(JNum(0))), ("question", Some(JStr(question))),
                    ("selections", Some(JArr([retry])))];
    GetRecordAt(entries, 0);
    GetRecordAt(entries, 1);
    GetRecordAt(entries, 2);
    SelectionFields(Some(JStr(RetryText)), Some(JStr(RetryFeedback)));
    [Record(entries)]
  }

  /** A selection list holding the single "retry" selection and nothing else. */
  predicate RetryOnly(selections: Json) {
    && selections.JArr? && |selections.items| == 1
    && Get(selections.items[0], "text") == Some(JStr(RetryText))
    && Get(selections.items[0], "feedback") == Some(JStr(RetryFeedback))
  }

  /** What both story pages write to `localStorage`: `None` where a key is
      left untouched. */
  datatype Writes = Writes(storyTitle: Option<string>, storyQuestions: Option<seq<Json>>)

  /** The returned question list together with the writes made on the way. */
  datatype Outcome = Outcome(questions: seq<Json>, writes: Writes)

  /** `data && data.data && typeof data.data === 'string'`, then
      `JSON.parse(data.data)` and `parsed && Array.isArray(parsed.output)`:
      the inner object of the new format, when there is one. */
  function Unwrap(parse: Parser, data: Json): (r: Option<Json>)
    ensures r.Some? ==> Truthy(r.value) && Get(r.value, "output").Some? && Get(r.value, "output").value.JArr?
    ensures r.Some? <==>
      && Get(data, "data").Some? && Get(data, "data").value.JStr? && |Get(data, "data").value.s| > 0
      && parse(Get(data, "data").value.s).Ok?
      && var inner := parse(Get(data, "data").value.s).value;
         Truthy(inner) && Get(inner, "output").Some? && Get(inner, "output").value.JArr?
  {
    match Get(data, "data")
    case Some(JStr(text)) =>
      if |text| == 0 then None
      else
        (match parse(text)
         case SyntaxError(_) => None
         case Ok(inner) =>
           var output := Get(inner, "output");
           if Truthy(inner) && output.Some? && output.value.JArr? then Some(inner) else None)
    case _ => None
  }

  /** The `output` items of an unwrapped inner object. */
  function OutputItems(inner: Json): seq<Json> {
    match Get(inner, "output")
    case Some(JArr(items)) => items
    case _ => []
  }

  /** No `null` among the selections: `selection.selection` throws on one. */
  predicate NoNull(sels: seq<Json>) {
    forall k :: 0 <= k < |sels| ==> !sels[k].JNull?
  }

  /** `list.map(selection => ({ text: selection.selection, feedback: selection.answer }))`;
      `None` when a `null` selection makes it throw. */
  function MapSelections(sels: seq<Json>): (r: Option<seq<Json>>)
    ensures r.Some? <==> NoNull(sels)
    ensures r.Some? ==> |r.value| == |sels|
    ensures r.Some? ==> forall k :: 0 <= k < |sels| ==>
      Get(r.value[k], "text") == Get(sels[k], "selection") && Get(r.value[k], "feedback") == Get(sels[k], "answer")
  {
    if NoNull(sels) then
      var mapped := seq(|sels|, k requires 0 <= k < |sels| => Selection(Get(sels[k], "selection"), Get(sels[k], "answer")));
      assert forall k :: 0 <= k < |sels| ==>
        Get(mapped[k], "text") == Get(sels[k], "selection") && Get(mapped[k], "feedback") == Get(sels[k], "answer")
      by {
        forall k | 0 <= k < |sels|
          ensures Get(mapped[k], "text") == Get(sels[k], "selection")
          ensures Get(mapped[k], "feedback") == Get(sels[k], "answer")
        {
          SelectionFields(Get(sels[k], "selection"), Get(sels[k], "answer"));
        }
      }
      Some(mapped)
    else None
  }

  /** The record `{ id: index, question: item.question, img: item.img, selections }`. */
  function QuestionRecord(index: nat, item: Json, selections: seq<Json>): (r: Json)
    ensures Get(r, "id") == Some(JNum(index))
    ensures Get(r, "question") == Get(item, "question")
    ensures Get(r, "img") == Get(item, "img")
    ensures Get(r, "selections") == Some(JArr(selections))
  {
    var entries := [("id", Some(JNum(index))), ("question", Get(item, "question")),
                    ("img", Get(item, "img")), ("selections", Some(JArr(selections)))];
    GetRecordAt(entries, 0);
    GetRecordAt(entries, 1);
    GetRecordAt(entries, 2);
    GetRecordAt(entries, 3);
    Record(entries)
  }

  /** An item the mapping reads without throwing: an object whose
      `selection_list` is an array without a `null` entry. Reading
      `item.selection_list.map` throws on anything else. */
  predicate Mappable(item: Json) {
    var list := Get(item, "selection_list");
    list.Some? && list.value.JArr? && NoNull(list.value.items)
  }

  /** The callback of `output.map((item, index) => …)` for an item it does not throw on. */
  function MapItem(index: nat, item: Json): Json
    requires Mappable(item)
  {
    QuestionRecord(index, item, MapSelections(Get(item, "selection_list").value.items).value)
  }

  /** `output.map((item, index) => …)`; `None` where the callback throws for
      some item, which abandons the whole list. */
  function MapOutput(items: seq<Json>): (r: Option<seq<Json>>)
    ensures r.Some? <==> forall k :: 0 <= k < |items| ==> Mappable(items[k])
    ensures r.Some? ==> |r.value| == |items|
  {
    if forall k :: 0 <= k < |items| ==> Mappable(items[k]) then
      Some(seq(|items|, k requires 0 <= k < |items| && Mappable(items[k]) => MapItem(k, items[k])))
    else None
  }

  /** The fields of a mapped question: `id` is its position, `question` and
      `img` are copied, and the selections keep their number and order with
      `selection` as `text` and `answer` as `feedback`. */
  lemma MappedQuestion(items: seq<Json>, k: nat)
    requires MapOutput(items).Some? && k < |items|
    ensures var q := MapOutput(items).value[k];
      var sels := Get(items[k], "selection_list").value.items;
      && Get(q, "id") == Some(JNum(k))
      && Get(q, "question") == Get(items[k], "question")
      && Get(q, "img") == Get(items[k], "img")
      && exists selections :: Get(q, "selections") == Some(JArr(selections))
           && |selections| == |sels|
           && forall m :: 0 <= m < |sels| ==>
                Get(selections[m], "text") == Get(sels[m], "selection")
                && Get(selections[m], "feedback") == Get(sels[m], "answer")
  {
    var sels := Get(items[k], "selection_list").value.items;
    var selections := MapSelections(sels).value;
    forall m | 0 <= m < |sels|
      ensures Get(selections[m], "text") == Get(sels[m], "selection")
      ensures Get(selections[m], "feedback") == Get(sels[m], "answer")
    {
      SelectionFields(Get(sels[m], "selection"), Get(sels[m], "answer"));
    }
  }

  lemma SelectionFields(text: Option<Json>, feedback: Option<Json>)
    ensures Get(Selection(text, feedback), "text") == text
    ensures Get(Selection(text, feedback), "feedback") == feedback
  {
    GetRecordAt([("text", text), ("feedback", feedback)], 0);
    GetRecordAt([("text", text), ("feedback", feedback)], 1);
  }

  /** `String(title)` when the title is truthy, the value `setItem` stores. */
  function TitleWrite(inner: Json): (r: Option<string>)
    ensures r.Some? <==> Present(Get(inner, "title"))
  {
    var title := Get(inner, "title");
    if Present(title) then Some(ToJsString(title.value)) else None
  }

  /** Everything after `data` is known to be a value. */
  function FromData(parse: Parser, data: Json): (r: Outcome)
    ensures r.writes.storyQuestions == Some(r.questions)
  {
    match Unwrap(parse, data)
    case None => Outcome(Placeholder(UnsupportedQuestion), Writes(None, Some(Placeholder(UnsupportedQuestion))))
    case Some(inner) =>
      var title := TitleWrite(inner);
      match MapOutput(OutputItems(inner))
      case Some(questions) => Outcome(questions, Writes(title, Some(questions)))
      case None => Outcome(Placeholder(UnsupportedQuestion), Writes(title, Some(Placeholder(UnsupportedQuestion))))
  }

  /** `parseAndStoreStoryData(responseData)`: a string is parsed first, and a
      `SyntaxError` there becomes the "解析数据时出错" placeholder. */
  function ParseAndStore(parse: Parser, response: Json): (r: Outcome)
    ensures r.writes.storyQuestions == Some(r.questions)
    ensures response.JStr? && parse(response.s).SyntaxError? ==>
      r == Outcome(Placeholder(ParseErrorPrefix + parse(response.s).message),
                   Writes(None, Some(Placeholder(ParseErrorPrefix + parse(response.s).message))))
  {
    if response.JStr? then
      match parse(response.s)
      case SyntaxError(message) =>
        Outcome(Placeholder(ParseErrorPrefix + message), Writes(None, Some(Placeholder(ParseErrorPrefix + message))))
      case Ok(data) => FromData(parse, data)
    else FromData(parse, response)
  }

  /** `parseExampleStoryData(exampleString)`. */
  function ParseExampleStoryData(parse: Parser, example: string): (r: Outcome)
    ensures r == ParseAndStore(parse, JStr(example))
  {
    ParseAndStore(parse, JStr(example))
  }

  /** The value the input stands for once a string input has been parsed;
      `None` when that parse fails. */
  function ResponseData(parse: Parser, response: Json): Option<Json> {
    if response.JStr? then
      match parse(response.s)
      case Ok(data) => Some(data)
      case SyntaxError(_) => None
    else Some(response)
  }

  /** The new format read in full: one question per `output` item, built
      as `MappedQuestion` describes, and the title written if truthy. */
  lemma NewFormatRecords(parse: Parser, response: Json)
    requires ResponseData(parse, response).Some?
    requires Unwrap(parse, ResponseData(parse, response).value).Some?
    requires var items := OutputItems(Unwrap(parse, ResponseData(parse, response).value).value);
      forall k :: 0 <= k < |items| ==> Mappable(items[k])
    ensures var inner := Unwrap(parse, ResponseData(parse, response).value).value;
      var r := ParseAndStore(parse, response);
      && Some(r.questions) == MapOutput(OutputItems(inner))
      && |r.questions| == |OutputItems(inner)|
      && r.writes == Writes(TitleWrite(inner), Some(r.questions))
  {
  }

  /** Every shape other than a fully readable new format gives exactly one
      placeholder: a string that does not parse, a missing or non-string or
      empty `data`, inner text that does not parse, no `output` array, or an
      item the mapping throws on. */
  lemma FallbacksGiveOnePlaceholder(parse: Parser, response: Json)
    ensures var r := ParseAndStore(parse, response);
      match ResponseData(parse, response)
      case None => r.questions == Placeholder(ParseErrorPrefix + parse(response.s).message)
      case Some(data) =>
        (Unwrap(parse, data).None?
         || exists k :: 0 <= k < |OutputItems(Unwrap(parse, data).value)| && !Mappable(OutputItems(Unwrap(parse, data).value)[k]))
        ==> r.questions == Placeholder(UnsupportedQuestion)
  {
  }

  /** The result is empty exactly when the new format is read and its
      `output` list is empty; every other outcome has at least one question. */
  lemma EmptyIffEmptyOutput(parse: Parser, response: Json)
    ensures var r := ParseAndStore(parse, response);
      |r.questions| == 0 <==>
        && ResponseData(parse, response).Some?
        && Unwrap(parse, ResponseData(parse, response).value).Some?
        && OutputItems(Unwrap(parse, ResponseData(parse, response).value).value) == []
  {
    var r := ParseAndStore(parse, response);
    match ResponseData(parse, response)
    case None =>
    case Some(data) =>
      match Unwrap(parse, data)
      case None =>
      case Some(inner) =>
        var items := OutputItems(inner);
        if MapOutput(items).Some? {
          assert |r.questions| == |items|;
        }
  }

  /** `storyTitle` is written only from a truthy `title` of a readable inner
      object, and then as its string form. */
  lemma TitleOnlyWhenTruthy(parse: Parser, response: Json)
    ensures var r := ParseAndStore(parse, response);
      r.writes.storyTitle.Some? ==>
        && ResponseData(parse, response).Some?
        && Unwrap(parse, ResponseData(parse, response).value).Some?
        && var title := Get(Unwrap(parse, ResponseData(parse, response).value).value, "title");
           Present(title) && r.writes.storyTitle == Some(ToJsString(title.value))
  {
  }
}
