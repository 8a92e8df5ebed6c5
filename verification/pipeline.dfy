/**
 * The two story producers feeding the word-practice page. Every record they
 * store carries its `question` as prose, and the practice page parses that
 * text as JSON; as long as the host parser rejects prose, every item fails,
 * no practice question survives, and the page goes straight to its
 * completion screen with "暂无题目" (no questions).
 */
module Pipeline {
  import opened Wrappers
  import opened JsString
  import opened Json
  import opened SparseList
  import opened StoryParser
  import opened StoryGeneration
  import opened WordPractice

  /** A `question` the practice page cannot parse into anything: absent,
      falsy, or prose. */
  predicate PlainQuestion(q: Option<Json>) {
    !Present(q) || (q.value.JStr? && PlainText(q.value.s))
  }

  /** A stored list whose records all have such a `question`. */
  predicate PlainQuestions(qs: seq<Json>) {
    forall k :: 0 <= k < |qs| ==> !qs[k].JNull? && PlainQuestion(Get(qs[k], "question"))
  }

  /** Loading a list of prose questions yields no practice question. */
  lemma PlainQuestionsLoadNothing(parse: Parser, qs: seq<Json>)
    requires RejectsPlainText(parse) && PlainQuestions(qs)
    ensures LoadQuestions(parse, Some(JArr(qs))) == []
  {
    forall k | 0 <= k < |qs|
      ensures var q := Get(qs[k], "question");
        !(Present(q) && parse(ToJsString(q.value)).Ok? && Truthy(parse(ToJsString(q.value)).value))
    {
      var q := Get(qs[k], "question");
      if Present(q) {
        assert parse(q.value.s).SyntaxError?;
      }
    }
    NothingParsedNoQuestions(parse, qs);
  }

  /** Text that starts with a character no JSON value starts with is prose,
      whatever follows. */
  lemma PlainByPrefix(p: string, x: string)
    requires |p| > 0 && !IsJsonSpace(p[0]) && !CanStartJson(p[0])
    ensures PlainText(p + x)
  {
    assert p + x == [p[0]] + (p[1..] + x);
    PlainTextByFirstChar(p[0], p[1..] + x);
  }

  /** The placeholder record asks its question in prose. */
  lemma PlaceholderIsPlain(question: string)
    requires PlainText(question)
    ensures PlainQuestions(Placeholder(question))
  {
    var entries := [("id", Some(JNum(0))), ("question", Some(JStr(question))),
                    ("selections", Some(JArr([Selection(Some(JStr(RetryText)), Some(JStr(RetryFeedback)))])))];
    GetRecordAt(entries, 1);
  }

  lemma QuestionOnlyIsPlain(text: string)
    requires PlainText(text)
    ensures PlainQuestions([QuestionOnly(text)])
  {
  }

  /** The response carries prose questions: wherever the new format is
      read, each `output` item's `question` is absent, falsy or prose. */
  predicate ProseOutput(parse: Parser, response: Json) {
    match ResponseData(parse, response)
    case None => true
    case Some(data) =>
      match Unwrap(parse, data)
      case None => true
      case Some(inner) =>
        var items := OutputItems(inner);
        forall k :: 0 <= k < |items| ==> PlainQuestion(Get(items[k], "question"))
  }

  /** The mapped questions copy each item's `question`. */
  lemma MappedIsPlain(items: seq<Json>)
    requires MapOutput(items).Some?
    requires forall k :: 0 <= k < |items| ==> PlainQuestion(Get(items[k], "question"))
    ensures PlainQuestions(MapOutput(items).value)
  {
    var qs := MapOutput(items).value;
    forall k | 0 <= k < |qs| ensures !qs[k].JNull? && PlainQuestion(Get(qs[k], "question")) {
      MappedQuestion(items, k);
    }
  }

  /** Whatever `parseAndStoreStoryData` stores asks its questions in prose. */
  lemma ParserStoresProse(parse: Parser, response: Json)
    requires ProseOutput(parse, response)
    ensures PlainQuestions(ParseAndStore(parse, response).questions)
  {
    PlainByPrefix(UnsupportedQuestion, "");
    assert UnsupportedQuestion + "" == UnsupportedQuestion;
    PlaceholderIsPlain(UnsupportedQuestion);
    match ResponseData(parse, response)
    case None =>
      var message := parse(response.s).message;
      PlainByPrefix(ParseErrorPrefix, message);
      PlaceholderIsPlain(ParseErrorPrefix + message);
    case Some(data) =>
      match Unwrap(parse, data)
      case None =>
      case Some(inner) =>
        var items := OutputItems(inner);
        if MapOutput(items).Some? {
          MappedIsPlain(items);
        }
  }

  /** After the story parser stores its result, the practice page has no
      question and shows the completion screen for zero questions. */
  lemma ParserThenPracticeIsEmpty(parse: Parser, response: Json)
    requires RejectsPlainText(parse) && ProseOutput(parse, response)
    ensures var stored := ParseAndStore(parse, response).writes.storyQuestions;
      && stored.Some?
      && LoadQuestions(parse, Some(JArr(stored.value))) == []
      && Render(Step(Initial, Loaded(LoadQuestions(parse, Some(JArr(stored.value)))))) == Completed(0, 0, 0)
  {
    ParserStoresProse(parse, response);
    PlainQuestionsLoadNothing(parse, ParseAndStore(parse, response).questions);
  }

  /** The generation page's stored list, when the request failed, when the
      response has no readable question data, or when it is the new format
      with prose questions, again leaves the practice page empty. */
  lemma GenerateThenPracticeIsEmpty(parse: Parser, fetched: Fetched, theme: string)
    requires RejectsPlainText(parse)
    requires fetched.Response? ==>
      || (NewFormat(parse, fetched.body).Some? && ProseOutput(parse, fetched.body))
      || (NewFormat(parse, fetched.body).None? && !LegacyLookup(parse, fetched.body).Found?)
    ensures var stored := HandleGenerate(parse, fetched, theme).storyQuestions;
      stored.Some? ==> LoadQuestions(parse, Some(JArr(stored.value))) == []
  {
    match fetched
    case RequestFailed(message) =>
      FailedGenerateIsEmpty(parse, message, theme);
    case Response(response) =>
      if NewFormat(parse, response).Some? {
        ProseGenerateIsEmpty(parse, response, theme);
      } else if LegacyLookup(parse, response).NotFound? {
        NoDataGenerateIsEmpty(parse, response, theme);
      } else {
        ThrowingGenerateIsEmpty(parse, response, theme);
      }
  }

  lemma FailedGenerateIsEmpty(parse: Parser, message: string, theme: string)
    requires RejectsPlainText(parse)
    ensures var stored := HandleGenerate(parse, RequestFailed(message), theme).storyQuestions;
      stored.Some? ==> LoadQuestions(parse, Some(JArr(stored.value))) == []
  {
    var stored := HandleGenerate(parse, RequestFailed(message), theme).storyQuestions;
    PlainByPrefix(RequestErrorPrefix, message);
    PlaceholderIsPlain(RequestErrorPrefix + message);
    PlainQuestionsLoadNothing(parse, stored.value);
  }

  lemma ProseGenerateIsEmpty(parse: Parser, response: Json, theme: string)
    requires RejectsPlainText(parse)
    requires NewFormat(parse, response).Some? && ProseOutput(parse, response)
    ensures var stored := HandleGenerate(parse, Response(response), theme).storyQuestions;
      stored.Some? ==> LoadQuestions(parse, Some(JArr(stored.value))) == []
  {
    var stored := HandleGenerate(parse, Response(response), theme).storyQuestions;
    NewFormatAgreesWithParser(parse, response, theme);
    if stored.Some? {
      ParserStoresProse(parse, response);
      PlainQuestionsLoadNothing(parse, stored.value);
    }
  }

  lemma NoDataGenerateIsEmpty(parse: Parser, response: Json, theme: string)
    requires RejectsPlainText(parse)
    requires NewFormat(parse, response).None? && LegacyLookup(parse, response).NotFound?
    ensures var stored := HandleGenerate(parse, Response(response), theme).storyQuestions;
      stored.Some? ==> LoadQuestions(parse, Some(JArr(stored.value))) == []
  {
    var stored := HandleGenerate(parse, Response(response), theme).storyQuestions;
    PlainByPrefix(NoDataPrefix, theme);
    QuestionOnlyIsPlain(NoDataPrefix + theme);
    PlainQuestionsLoadNothing(parse, stored.value);
  }

  lemma ThrowingGenerateIsEmpty(parse: Parser, response: Json, theme: string)
    requires RejectsPlainText(parse)
    requires NewFormat(parse, response).None? && LegacyLookup(parse, response).LookupThrows?
    ensures var stored := HandleGenerate(parse, Response(response), theme).storyQuestions;
      stored.Some? ==> LoadQuestions(parse, Some(JArr(stored.value))) == []
  {
    var stored := HandleGenerate(parse, Response(response), theme).storyQuestions;
    PlainByPrefix(ProcessingErrorPrefix, theme);
    PlaceholderIsPlain(ProcessingErrorPrefix + theme);
    PlainQuestionsLoadNothing(parse, stored.value);
  }

}
