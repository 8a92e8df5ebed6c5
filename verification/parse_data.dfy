/**
 * The data-import page: a text area whose content is handed to
 * `parseAndStoreStoryData`, and a status line reporting the outcome.
 */
module ParseData {
  import opened Wrappers
  import opened JsString
  import opened Json
  import opened StoryParser

  const EmptyInputMessage: string := "请输入有效的JSON数据"
  const FailureMessage: string := "解析数据失败，请检查JSON格式"
  const SuccessPrefix: string := "成功解析并存储了"
  const SuccessSuffix: string := "个问题！"

  datatype Status = Status(success: bool, message: string)

  /** The state after a submit: the status line, the busy flag, and the
      parser's outcome when it was called. */
  datatype Submitted = Submitted(status: Status, isProcessing: bool, outcome: Option<Outcome>)

  /** `handleSubmit`. Blank input is refused before the parser runs; the
      parser never throws, so its `catch` block is unreachable here. */
  function HandleSubmit(parse: Parser, input: string, isProcessing: bool): (r: Submitted)
    ensures Blank(input) ==> r == Submitted(Status(false, EmptyInputMessage), isProcessing, None)
    ensures !Blank(input) ==> r.outcome == Some(ParseAndStore(parse, JStr(input))) && !r.isProcessing
    ensures !Blank(input) ==> (r.status.success <==> |r.outcome.value.questions| > 0)
  {
    TrimEmptyIffBlank(input);
    if Trim(input) == "" then Submitted(Status(false, EmptyInputMessage), isProcessing, None)
    else
      var outcome := ParseAndStore(parse, JStr(input));
      var n := |outcome.questions|;
      var status := if n > 0 then Status(true, SuccessPrefix + NatToString(n) + SuccessSuffix)
                    else Status(false, FailureMessage);
      Submitted(status, false, Some(outcome))
  }

  /** Text that does not parse, or parses to something other than the new
      format, is still reported as a success with one question: the
      placeholder the parser stores. */
  lemma MalformedReportedAsOne(parse: Parser, input: string)
    requires !Blank(input)
    requires ResponseData(parse, JStr(input)).None? || Unwrap(parse, ResponseData(parse, JStr(input)).value).None?
    ensures HandleSubmit(parse, input, false).status == Status(true, SuccessPrefix + "1" + SuccessSuffix)
  {
    FallbacksGiveOnePlaceholder(parse, JStr(input));
    assert NatToString(1) == "1";
  }

  /** The only failure status after the parser ran is an empty `output`. */
  lemma FailureMeansEmptyOutput(parse: Parser, input: string)
    requires !Blank(input)
    ensures var r := HandleSubmit(parse, input, false);
      !r.status.success <==>
        var data := ResponseData(parse, JStr(input));
        data.Some? && Unwrap(parse, data.value).Some? && OutputItems(Unwrap(parse, data.value).value) == []
  {
    EmptyIffEmptyOutput(parse, JStr(input));
  }

  // The example payload the "test data" button fills in.

  /** `{answer, selection}`. */
  function Choice(answer: string, selection: string): (r: Json)
    ensures Get(r, "answer") == Some(JStr(answer)) && Get(r, "selection") == Some(JStr(selection))
  {
    LookupAt([("answer", JStr(answer)), ("selection", JStr(selection))], "selection", 1);
    JObj([("answer", JStr(answer)), ("selection", JStr(selection))])
  }

  /** A `selection_list` of `(answer, selection)` pairs. */
  function Choices(pairs: seq<(string, string)>): (r: seq<Json>)
    ensures |r| == |pairs| && NoNull(r)
    ensures forall k :: 0 <= k < |pairs| ==> r[k] == Choice(pairs[k].0, pairs[k].1)
  {
    seq(|pairs|, k requires 0 <= k < |pairs| => Choice(pairs[k].0, pairs[k].1))
  }

  /** `{img, question, selection_list}`. */
  function Item(img: string, question: string, choices: seq<Json>): (r: Json)
    ensures Get(r, "question") == Some(JStr(question))
    ensures Get(r, "selection_list") == Some(JArr(choices))
  {
    var fields := [("img", JStr(img)), ("question", JStr(question)), ("selection_list", JArr(choices))];
    LookupAt(fields, "question", 1);
    LookupAt(fields, "selection_list", 2);
    JObj(fields)
  }

  /** `{output, title}`. */
  function Inner(items: seq<Json>, title: string): (r: Json)
    ensures Get(r, "output") == Some(JArr(items)) && Get(r, "title") == Some(JStr(title))
  {
    LookupAt([("output", JArr(items)), ("title", JStr(title))], "title", 1);
    JObj([("output", JArr(items)), ("title", JStr(title))])
  }

  /** The long texts of the example payload, kept apart so that the
      statements about its shape do not depend on them. */
  datatype ExampleTexts = ExampleTexts(
    question1: string, question2: string,
    wrong1: seq<string>, wrong2: seq<string>,
    debugUrl: string)

  /** The example's first question: 地图 is right, the other three wrong. */
  function ExamplePairs1(t: ExampleTexts): seq<(string, string)>
    requires |t.wrong1| == 3
  {
    [("你真棒！", "地图"), (t.wrong1[0], "书籍"), (t.wrong1[1], "照片"), (t.wrong1[2], "信件")]
  }

  function ExamplePairs2(t: ExampleTexts): seq<(string, string)>
    requires |t.wrong2| == 3
  {
    [("你真棒！", "斑驳"), (t.wrong2[0], "明亮"), (t.wrong2[1], "暗淡"), (t.wrong2[2], "均匀")]
  }

  function ExampleItems(t: ExampleTexts): seq<Json>
    requires |t.wrong1| == 3 && |t.wrong2| == 3
  {
    [Item("https://s.coze.cn/t/fywy4IEMUVI/", t.question1, Choices(ExamplePairs1(t))),
     Item("https://s.coze.cn/t/WgE0HBk-d0U/", t.question2, Choices(ExamplePairs2(t)))]
  }

  const ExampleTitle: string := "章同学的校园冒险"

  /** The value of the inner `data` text. */
  function ExampleInner(t: ExampleTexts): Json
    requires |t.wrong1| == 3 && |t.wrong2| == 3
  {
    Inner(ExampleItems(t), ExampleTitle)
  }

  /** The example payload, whose `data` is the text `dataText`. */
  function ExamplePayload(t: ExampleTexts, dataText: string): (r: Json)
    ensures Get(r, "data") == Some(JStr(dataText))
  {
    var fields := [
      ("code", JNum(0)),
      ("cost", JStr("0")),
      ("data", JStr(dataText)),
      ("debug_url", JStr(t.debugUrl)),
      ("msg", JStr("Success")),
      ("token", JNum(8471))];
    LookupAt(fields, "data", 2);
    JObj(fields)
  }

  /** The example unwraps to its inner object, whose two items map. */
  lemma ExampleUnwraps(parse: Parser, t: ExampleTexts, input: string, dataText: string)
    requires |t.wrong1| == 3 && |t.wrong2| == 3 && |dataText| > 0
    requires parse(input) == Ok(ExamplePayload(t, dataText))
    requires parse(dataText) == Ok(ExampleInner(t))
    ensures ResponseData(parse, JStr(input)) == Some(ExamplePayload(t, dataText))
    ensures Unwrap(parse, ExamplePayload(t, dataText)) == Some(ExampleInner(t))
    ensures OutputItems(ExampleInner(t)) == ExampleItems(t)
    ensures forall k :: 0 <= k < |ExampleItems(t)| ==> Mappable(ExampleItems(t)[k])
    ensures TitleWrite(ExampleInner(t)) == Some(ExampleTitle)
  {
    ExampleResponse(parse, t, input, dataText);
    ExampleInnerUnwraps(parse, t, dataText);
    ExampleInnerFields(t);
  }

  lemma ExampleResponse(parse: Parser, t: ExampleTexts, input: string, dataText: string)
    requires parse(input) == Ok(ExamplePayload(t, dataText))
    ensures ResponseData(parse, JStr(input)) == Some(ExamplePayload(t, dataText))
  {
  }

  lemma ExampleInnerUnwraps(parse: Parser, t: ExampleTexts, dataText: string)
    requires |t.wrong1| == 3 && |t.wrong2| == 3 && |dataText| > 0
    requires parse(dataText) == Ok(ExampleInner(t))
    ensures Unwrap(parse, ExamplePayload(t, dataText)) == Some(ExampleInner(t))
  {
  }

  lemma ExampleInnerFields(t: ExampleTexts)
    requires |t.wrong1| == 3 && |t.wrong2| == 3
    ensures OutputItems(ExampleInner(t)) == ExampleItems(t)
    ensures forall k :: 0 <= k < |ExampleItems(t)| ==> Mappable(ExampleItems(t)[k])
    ensures TitleWrite(ExampleInner(t)) == Some(ExampleTitle)
  {
    InnerOutputAndTitle(ExampleItems(t), ExampleTitle);
    ExampleItemsMappable(t);
  }

  /** The inner object gives back its items and its title. */
  lemma InnerOutputAndTitle(items: seq<Json>, title: string)
    requires |title| > 0
    ensures OutputItems(Inner(items, title)) == items
    ensures TitleWrite(Inner(items, title)) == Some(title)
  {
  }

  lemma ExampleItemsMappable(t: ExampleTexts)
    requires |t.wrong1| == 3 && |t.wrong2| == 3
    ensures forall k :: 0 <= k < |ExampleItems(t)| ==> Mappable(ExampleItems(t)[k])
  {
    var items := ExampleItems(t);
    forall k | 0 <= k < |items|
      ensures Mappable(items[k])
    {
      if k == 0 {
        ItemMappable("https://s.coze.cn/t/fywy4IEMUVI/", t.question1, ExamplePairs1(t));
      } else {
        ItemMappable("https://s.coze.cn/t/WgE0HBk-d0U/", t.question2, ExamplePairs2(t));
      }
    }
  }

  /** An item built from choices is one the mapping reads. */
  lemma ItemMappable(img: string, question: string, pairs: seq<(string, string)>)
    ensures Mappable(Item(img, question, Choices(pairs)))
  {
  }

  /** A mapped question offers the given `(feedback, text)` pairs as its
      selections, in order. */
  ghost predicate Offers(q: Json, pairs: seq<(string, string)>) {
    exists selections ::
      && Get(q, "selections") == Some(JArr(selections))
      && |selections| == |pairs|
      && forall m :: 0 <= m < |pairs| ==>
           Get(selections[m], "text") == Some(JStr(pairs[m].1))
           && Get(selections[m], "feedback") == Some(JStr(pairs[m].0))
  }

  /** An item whose `selection_list` is built from `pairs` maps to a
      question offering exactly those pairs. */
  lemma MappedOffers(items: seq<Json>, k: nat, pairs: seq<(string, string)>)
    requires MapOutput(items).Some? && k < |items|
    requires Get(items[k], "selection_list") == Some(JArr(Choices(pairs)))
    ensures Offers(MapOutput(items).value[k], pairs)
  {
    var selections := MapSelections(Choices(pairs)).value;
    MappedSelections(items, k, pairs);
    SelectionsOfChoices(pairs);
    assert Get(MapOutput(items).value[k], "selections") == Some(JArr(selections));
  }

  lemma MappedSelections(items: seq<Json>, k: nat, pairs: seq<(string, string)>)
    requires MapOutput(items).Some? && k < |items|
    requires Get(items[k], "selection_list") == Some(JArr(Choices(pairs)))
    ensures MapSelections(Choices(pairs)).Some?
    ensures Get(MapOutput(items).value[k], "selections") == Some(JArr(MapSelections(Choices(pairs)).value))
  {
    assert MapOutput(items).value[k] == MapItem(k, items[k]);
  }

  /** Mapping the choices built from `pairs` turns each `(answer,
      selection)` into `{text: selection, feedback: answer}`. */
  lemma SelectionsOfChoices(pairs: seq<(string, string)>)
    ensures MapSelections(Choices(pairs)).Some?
    ensures |MapSelections(Choices(pairs)).value| == |pairs|
    ensures forall m :: 0 <= m < |pairs| ==>
      Get(MapSelections(Choices(pairs)).value[m], "text") == Some(JStr(pairs[m].1))
      && Get(MapSelections(Choices(pairs)).value[m], "feedback") == Some(JStr(pairs[m].0))
  {
    var sels := Choices(pairs);
    var selections := MapSelections(sels).value;
    forall m | 0 <= m < |pairs|
      ensures Get(selections[m], "text") == Some(JStr(pairs[m].1))
      ensures Get(selections[m], "feedback") == Some(JStr(pairs[m].0))
    {
      assert selections[m] == Selection(Get(sels[m], "selection"), Get(sels[m], "answer"));
      SelectionFields(Get(sels[m], "selection"), Get(sels[m], "answer"));
    }
  }

  /** The example's questions offer their four choices in order: 地图,
      书籍, 照片 and 信件 first, "你真棒！" being the feedback of 地图. */
  lemma ExampleSelections(t: ExampleTexts)
    requires |t.wrong1| == 3 && |t.wrong2| == 3
    requires MapOutput(ExampleItems(t)).Some?
    ensures Offers(MapOutput(ExampleItems(t)).value[0], ExamplePairs1(t))
    ensures Offers(MapOutput(ExampleItems(t)).value[1], ExamplePairs2(t))
  {
    MappedOffers(ExampleItems(t), 0, ExamplePairs1(t));
    MappedOffers(ExampleItems(t), 1, ExamplePairs2(t));
  }

  /** Submitting the example payload stores two questions numbered 0 and
      1, each offering its four choices in the payload's order with the
      payload's feedback for each, and stores the title. */
  lemma ExampleParsesToTwoQuestions(parse: Parser, t: ExampleTexts, input: string, dataText: string)
    requires |t.wrong1| == 3 && |t.wrong2| == 3
    requires !Blank(input) && |dataText| > 0
    requires parse(input) == Ok(ExamplePayload(t, dataText))
    requires parse(dataText) == Ok(ExampleInner(t))
    ensures var outcome := ParseAndStore(parse, JStr(input));
      && HandleSubmit(parse, input, false).status == Status(true, SuccessPrefix + "2" + SuccessSuffix)
      && |outcome.questions| == 2
      && Get(outcome.questions[0], "id") == Some(JNum(0))
      && Get(outcome.questions[1], "id") == Some(JNum(1))
      && outcome.writes.storyTitle == Some(ExampleTitle)
      && Offers(outcome.questions[0], ExamplePairs1(t))
      && Offers(outcome.questions[1], ExamplePairs2(t))
  {
    ExampleOutcome(parse, t, input, dataText);
    SubmitCountsTwo(parse, input);
    MappedId(ExampleItems(t), 0);
    MappedId(ExampleItems(t), 1);
    ExampleSelections(t);
  }

  /** What storing the example returns and writes. */
  lemma ExampleOutcome(parse: Parser, t: ExampleTexts, input: string, dataText: string)
    requires |t.wrong1| == 3 && |t.wrong2| == 3 && |dataText| > 0
    requires parse(input) == Ok(ExamplePayload(t, dataText))
    requires parse(dataText) == Ok(ExampleInner(t))
    ensures MapOutput(ExampleItems(t)).Some?
    ensures var questions := MapOutput(ExampleItems(t)).value;
      ParseAndStore(parse, JStr(input)) == Outcome(questions, Writes(Some(ExampleTitle), Some(questions)))
  {
    ExampleUnwraps(parse, t, input, dataText);
    NewFormatRecords(parse, JStr(input));
  }

  /** Two stored questions are reported as "成功解析并存储了2个问题！". */
  lemma SubmitCountsTwo(parse: Parser, input: string)
    requires !Blank(input) && |ParseAndStore(parse, JStr(input)).questions| == 2
    ensures HandleSubmit(parse, input, false).status == Status(true, SuccessPrefix + "2" + SuccessSuffix)
  {
    assert NatToString(2) == "2";
  }

  /** A mapped question's `id` is its position. */
  lemma MappedId(items: seq<Json>, k: nat)
    requires MapOutput(items).Some? && k < |items|
    ensures Get(MapOutput(items).value[k], "id") == Some(JNum(k))
  {
    assert MapOutput(items).value[k] == MapItem(k, items[k]);
  }

  /** The texts the page's example actually carries. */
  const PageExampleTexts: ExampleTexts := ExampleTexts(
    "今天，章同学在校园里发现了一张神秘的（），地图上标注着一个隐藏的宝藏。好奇心驱使他决定去探险。他带上书包，悄悄溜出了教室，开始了他的冒险之旅。",
    "章同学首先来到了学校的后花园，这里花草茂盛，阳光透过树叶洒在地上，形成（    ）的光影。他小心翼翼地穿过花园，突然，一只蝴蝶飞过，翅膀上闪烁着五彩斑斓的光芒。章同学被这美丽的景象吸引，暂时忘记了地图上的标记。",
    ["很遗憾~书籍与上下文内容不相关，无法描述发现宝藏的情境。",
     "很遗憾~照片与上下文内容不相关，无法描述发现宝藏的情境。",
     "很遗憾~信件与上下文内容不相关，无法描述发现宝藏的情境。"],
    ["很遗憾~+错误原因：'明亮'通常用于形容光线充足，与文中描述的斑驳光影不符。",
     "很遗憾~+错误原因：'暗淡'通常用于形容光线不足，与文中描述的斑驳光影不符。",
     "很遗憾~+错误原因：'均匀'通常用于形容分布均匀，与文中描述的斑驳光影不符。"],
    "https://www.coze.cn/work_flow?execute_id=7486372376550555648&space_id=7403639930154680330&workflow_id=7486361244284108839&execute_mode=2")
}
