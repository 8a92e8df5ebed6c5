/**
 * What `handleGenerateStoryClick` in `src/app/exercise/page.js` does with
 * the workflow's response: the new-format mapping shared with
 * `parseAndStoreStoryData`, and otherwise `processOriginalFormat`, which
 * looks for `question_data` along five paths and normalises an array, an
 * object keyed by numbers, or JSON text into a sparse list that is then
 * compacted.
 *
 * The request itself is an input: either the response value or the message
 * of the error that `fetch`, `response.json()` or the test-data parse threw.
 * The theme picked with `Math.random` is an input too.
 */
module StoryGeneration {
  import opened Wrappers
  import opened JsString
  import opened Json
  import opened LegacyPatterns
  import opened SparseList
  import opened StoryParser

  const RequestErrorPrefix: string := "请求时发生错误。请稍后再试或联系管理员。错误: "
  const ProcessingErrorPrefix: string := "处理问题数据时出错。请稍后再试或联系管理员。主题: "
  const NoDataPrefix: string := "API未返回问题数据。请稍后再试或联系管理员。主题: "

  datatype Fetched = Response(body: Json) | RequestFailed(message: string)

  /** The first four places `question_data` is looked for, in order. */
  const QuestionPaths: seq<seq<string>> :=
    [["data", "outputs", "question_data"], ["result", "question_data"], ["output", "question_data"], ["question_data"]]

  /** The value at the first path whose `&&` chain is truthy. */
  function FirstPresent(j: Json, paths: seq<seq<string>>): (r: Option<Json>)
    ensures r.Some? ==> exists i :: 0 <= i < |paths| && Path(j, paths[i]) == r && Present(r)
                          && (forall h :: 0 <= h < i ==> !Present(Path(j, paths[h])))
    ensures r.None? ==> forall i :: 0 <= i < |paths| ==> !Present(Path(j, paths[i]))
    decreases |paths|
  {
    if |paths| == 0 then None
    else if Present(Path(j, paths[0])) then Path(j, paths[0])
    else
      var r := FirstPresent(j, paths[1..]);
      assert forall i :: 1 <= i < |paths| ==> paths[i] == paths[1..][i - 1];
      r
  }

  /** Where the legacy lookup ends: a truthy value, nothing, or an exception
      (a `SyntaxError` from re-parsing `data`, or a `TypeError` from reading
      `question_data` of a parsed `null`). */
  datatype Lookup = Found(value: Json) | NotFound | LookupThrows

  /** The fifth path: `question_data` of `data`, parsing `data` first when
      it is a string. */
  function DataFallback(parse: Parser, data: Json): (r: Lookup)
    ensures r.Found? ==> Truthy(r.value)
  {
    var potential :=
      if data.JStr? then
        (match parse(data.s)
         case Ok(v) => Some(v)
         case SyntaxError(_) => None)
      else Some(data);
    match potential
    case None => LookupThrows
    case Some(v) =>
      if v.JNull? then LookupThrows
      else
        var qd := Get(v, "question_data");
        if Present(qd) then Found(qd.value) else NotFound
  }

  /** The lookup of lines 141-166: the four fixed paths in order, then the
      fallback through `data` when `data` is truthy. */
  function LegacyLookup(parse: Parser, response: Json): (r: Lookup)
    ensures r.Found? ==> Truthy(r.value)
    ensures FirstPresent(response, QuestionPaths).Some? ==> r == Found(FirstPresent(response, QuestionPaths).value)
    ensures r.LookupThrows? ==> FirstPresent(response, QuestionPaths).None? && Present(Get(response, "data"))
  {
    match FirstPresent(response, QuestionPaths)
    case Some(v) => Found(v)
    case None =>
      var data := Get(response, "data");
      if Present(data) then DataFallback(parse, data.value) else NotFound
  }

  /** The value a matched indexed line contributes: the unescaped content
      parsed, or else the question text found in it, or else the content. */
  function IndexedValue(parse: Parser, content: string): (r: Json)
    ensures parse(content).Ok? ==> r == parse(content).value
    ensures parse(content).SyntaxError? ==> r.JObj? && Truthy(r)
  {
    match parse(content)
    case Ok(v) => v
    case SyntaxError(_) =>
      match FindQuestion(content)
      case Some(q) => QuestionOnly(q)
      case None => QuestionOnly(content)
  }

  /** The writes the array branch (lines 174-221) makes for one item. */
  function ArrayItemWrites(parse: Parser, item: Json): (ws: seq<Write>)
    ensures |ws| <= 1
    ensures item.JStr? ==> |ws| == 1
    ensures item.JObj? || item.JArr? ==> ws == [Append(item)]
    ensures !IsObjectTyped(item) && !item.JStr? ==> ws == []
    ensures item.JNull? ==> ws == []
  {
    match item
    case JStr(s) =>
      (match MatchIndexed(s)
       case Some(m) => [Place(ParseInt(m.digits), IndexedValue(parse, Unescape(m.content)))]
       case None => [Append(QuestionOnly(s))])
    case JObj(_) => [Append(item)]
    case JArr(_) => [Append(item)]
    case _ => []
  }

  function ArrayWrites(parse: Parser, items: seq<Json>): (ws: seq<Write>)
    ensures |ws| <= |items|
    decreases |items|
  {
    if |items| == 0 then [] else ArrayItemWrites(parse, items[0]) + ArrayWrites(parse, items[1..])
  }

  /** The writes the object branch (lines 222-260) makes for one entry: a
      string value is unescaped and read like an indexed line, an object
      value is placed as it is, anything else is skipped. Every placement
      goes to `parseInt(key, 10)`. */
  function ObjectEntryWrites(parse: Parser, key: string, value: Json): (ws: seq<Write>)
    ensures |ws| <= 1
    ensures forall m :: 0 <= m < |ws| ==> ws[m].Place? && ws[m].index == ParseInt(key)
  {
    match value
    case JStr(s) => [Place(ParseInt(key), IndexedValue(parse, Unescape(s)))]
    case JObj(_) => [Place(ParseInt(key), value)]
    case JArr(_) => [Place(ParseInt(key), value)]
    case _ => []
  }

  function ObjectWrites(parse: Parser, fields: seq<(string, Json)>): (ws: seq<Write>)
    ensures |ws| <= |fields|
    ensures forall m :: 0 <= m < |ws| ==> ws[m].Place?
    decreases |fields|
  {
    if |fields| == 0 then []
    else ObjectEntryWrites(parse, fields[0].0, fields[0].1) + ObjectWrites(parse, fields[1..])
  }

  /** `typeof item === 'object' ? item : { question: String(item) }`. */
  function ParsedArrayItem(item: Json): (r: Json)
    ensures IsObjectTyped(item) ==> r == item
    ensures !IsObjectTyped(item) ==> r == QuestionOnly(ToJsString(item))
  {
    if IsObjectTyped(item) then item else QuestionOnly(ToJsString(item))
  }

  /** The writes for the entries of a parsed object (lines 274-283): keys
      whose `parseInt` is `NaN` are skipped. */
  function ParsedObjectWrites(fields: seq<(string, Json)>): (ws: seq<Write>)
    ensures |ws| <= |fields|
    ensures forall m :: 0 <= m < |ws| ==> ws[m].Place? && ws[m].index.Some?
    decreases |fields|
  {
    if |fields| == 0 then []
    else
      var (key, value) := fields[0];
      var head := if ParseInt(key).Some? then [Place(ParseInt(key), ParsedArrayItem(value))] else [];
      head + ParsedObjectWrites(fields[1..])
  }

  /** The string branch (lines 261-289): the text is parsed; an array pushes
      its items, an object places its numeric keys, and a `SyntaxError` or
      the `TypeError` of `Object.entries(null)` pushes the text itself. */
  function StringWrites(parse: Parser, text: string): (ws: seq<Write>)
    ensures parse(text).SyntaxError? ==> ws == [Append(QuestionOnly(text))]
  {
    match parse(text)
    case SyntaxError(_) => [Append(QuestionOnly(text))]
    case Ok(JArr(items)) => Appends(seq(|items|, k requires 0 <= k < |items| => ParsedArrayItem(items[k])))
    case Ok(JNull) => [Append(QuestionOnly(text))]
    case Ok(JObj(fields)) => ParsedObjectWrites(fields)
    case Ok(_) => []
  }

  /** The writes `question_data` turns into, by its shape. */
  function NormaliseWrites(parse: Parser, questionData: Json): seq<Write> {
    match questionData
    case JArr(items) => ArrayWrites(parse, items)
    case JObj(fields) => ObjectWrites(parse, fields)
    case JStr(s) => StringWrites(parse, s)
    case _ => []
  }

  /** `parsedQuestions.filter(Boolean)` after the writes. */
  function Normalise(parse: Parser, questionData: Json): (r: seq<Json>)
    ensures forall m :: 0 <= m < |r| ==> Truthy(r[m])
  {
    Compact(Build(NormaliseWrites(parse, questionData)))
  }

  /** How `processOriginalFormat` ends: it sets the question list, or throws. */
  datatype Legacy = Processed(questions: seq<Json>) | Throws

  function ProcessOriginalFormat(parse: Parser, response: Json, theme: string): (r: Legacy)
    ensures LegacyLookup(parse, response).NotFound? ==> r == Processed([QuestionOnly(NoDataPrefix + theme)])
    ensures r.Throws? <==> LegacyLookup(parse, response).LookupThrows?
  {
    match LegacyLookup(parse, response)
    case Found(questionData) => Processed(Normalise(parse, questionData))
    case NotFound => Processed([QuestionOnly(NoDataPrefix + theme)])
    case LookupThrows => Throws
  }

  /** The new format read in full, when it is: the mapped questions and the
      title write. */
  function NewFormat(parse: Parser, response: Json): (r: Option<(seq<Json>, Option<string>)>)
    ensures r.Some? <==> Unwrap(parse, response).Some? && MapOutput(OutputItems(Unwrap(parse, response).value)).Some?
  {
    match Unwrap(parse, response)
    case None => None
    case Some(inner) =>
      match MapOutput(OutputItems(inner))
      case None => None
      case Some(questions) => Some((questions, TitleWrite(inner)))
  }

  /** The questions `processedQuestions` holds after the `try` of lines
      74-127, and the title written on the way. */
  function Process(parse: Parser, response: Json, theme: string): (seq<Json>, Option<string>) {
    match NewFormat(parse, response)
    case Some(result) => result
    case None =>
      match ProcessOriginalFormat(parse, response, theme)
      case Processed(questions) => (questions, None)
      case Throws => (Placeholder(ProcessingErrorPrefix + theme), None)
  }

  /** The `localStorage` writes of one click. `storyQuestions` is written
      only for a non-empty list; a failed request writes its placeholder. */
  function HandleGenerate(parse: Parser, fetched: Fetched, theme: string): (r: Writes)
    ensures r.storyQuestions.Some? ==> |r.storyQuestions.value| > 0
    ensures fetched.RequestFailed? ==> r == Writes(None, Some(Placeholder(RequestErrorPrefix + fetched.message)))
  {
    match fetched
    case RequestFailed(message) => Writes(None, Some(Placeholder(RequestErrorPrefix + message)))
    case Response(response) =>
      var (questions, title) := Process(parse, response, theme);
      Writes(title, if |questions| > 0 then Some(questions) else None)
  }

  /** When the new format reads, the page stores what `parseAndStoreStoryData`
      returns for the same response, and the same title; only an empty
      `output` differs, which the page does not store. */
  lemma NewFormatAgreesWithParser(parse: Parser, response: Json, theme: string)
    requires NewFormat(parse, response).Some?
    ensures var page := HandleGenerate(parse, Response(response), theme);
      var parser := ParseAndStore(parse, response);
      && page.storyTitle == parser.writes.storyTitle
      && (|parser.questions| > 0 ==> page.storyQuestions == parser.writes.storyQuestions)
      && (|parser.questions| == 0 ==> page.storyQuestions.None?)
  {
    assert Get(response, "data").Some?;
  }

  /** A string `data` that does not parse, with none of the four fixed paths
      present, makes the fifth path re-throw; the page stores the
      "处理问题数据时出错" placeholder with the theme. */
  lemma UnparseableDataGivesProcessingError(parse: Parser, response: Json, theme: string)
    requires Get(response, "data").Some? && Get(response, "data").value.JStr?
    requires parse(Get(response, "data").value.s).SyntaxError?
    requires forall i :: 0 <= i < |QuestionPaths| ==> !Present(Path(response, QuestionPaths[i]))
    requires |Get(response, "data").value.s| > 0
    ensures HandleGenerate(parse, Response(response), theme)
         == Writes(None, Some(Placeholder(ProcessingErrorPrefix + theme)))
  {
  }

  /** With nothing to be found and nothing that throws, the page stores one
      record whose question names the theme. */
  lemma NothingFoundNamesTheme(parse: Parser, response: Json, theme: string)
    requires NewFormat(parse, response).None?
    requires LegacyLookup(parse, response).NotFound?
    ensures HandleGenerate(parse, Response(response), theme)
         == Writes(None, Some([QuestionOnly(NoDataPrefix + theme)]))
  {
  }

  /** An array of plain strings, objects and primitives (no indexed lines)
      keeps its strings as `{question}` records and its objects as they are,
      in order, and loses only the primitives. */
  lemma PlainArrayKeepsOrder(parse: Parser, items: seq<Json>)
    requires forall k :: 0 <= k < |items| ==> !(items[k].JStr? && MatchIndexed(items[k].s).Some?)
    ensures Normalise(parse, JArr(items)) == PlainValues(items)
  {
    PlainArrayWrites(parse, items);
    AppendsOfTruthy(PlainValues(items));
  }

  lemma PlainArrayWrites(parse: Parser, items: seq<Json>)
    requires forall k :: 0 <= k < |items| ==> !(items[k].JStr? && MatchIndexed(items[k].s).Some?)
    ensures NormaliseWrites(parse, JArr(items)) == Appends(PlainValues(items))
  {
    PlainArrayAppends(parse, items);
  }

  /** Appending truthy values and compacting gives the values back. */
  lemma AppendsOfTruthy(values: seq<Json>)
    requires forall m :: 0 <= m < |values| ==> Truthy(values[m])
    ensures Compact(Build(Appends(values))) == values
  {
    AppendsCompact(values);
    AllTruthyFilter(values);
  }

  /** What the array branch pushes for an item that is not an indexed line. */
  function PlainValue(item: Json): seq<Json> {
    match item
    case JStr(s) => [QuestionOnly(s)]
    case JObj(_) => [item]
    case JArr(_) => [item]
    case _ => []
  }

  function PlainValues(items: seq<Json>): (r: seq<Json>)
    ensures forall m :: 0 <= m < |r| ==> Truthy(r[m])
    decreases |items|
  {
    if |items| == 0 then [] else PlainValue(items[0]) + PlainValues(items[1..])
  }

  lemma PlainItemWrites(parse: Parser, item: Json)
    requires !(item.JStr? && MatchIndexed(item.s).Some?)
    ensures ArrayItemWrites(parse, item) == Appends(PlainValue(item))
  {
  }

  lemma {:induction false} PlainArrayAppends(parse: Parser, items: seq<Json>)
    requires forall k :: 0 <= k < |items| ==> !(items[k].JStr? && MatchIndexed(items[k].s).Some?)
    ensures ArrayWrites(parse, items) == Appends(PlainValues(items))
    decreases |items|
  {
    if |items| > 0 {
      PlainArrayAppends(parse, items[1..]);
      PlainItemWrites(parse, items[0]);
      AppendsConcat(PlainValue(items[0]), PlainValues(items[1..]));
    }
  }

  lemma AppendsConcat(a: seq<Json>, b: seq<Json>)
    ensures Appends(a + b) == Appends(a) + Appends(b)
  {
  }

  lemma {:induction false} AllTruthyFilter(vs: seq<Json>)
    requires forall m :: 0 <= m < |vs| ==> Truthy(vs[m])
    ensures FilterTruthy(vs) == vs
    decreases |vs|
  {
    if |vs| > 0 {
      AllTruthyFilter(vs[..|vs| - 1]);
      assert vs[..|vs| - 1] + [vs[|vs| - 1]] == vs;
    }
  }

  /** Object entries whose key has no numeric prefix contribute nothing. */
  lemma NonNumericKeysDropped(parse: Parser, fields: seq<(string, Json)>)
    requires forall k :: 0 <= k < |fields| ==> ParseInt(fields[k].0).None?
    ensures Normalise(parse, JObj(fields)) == []
  {
    NonNumericWrites(parse, fields);
    DroppedWrites(Empty, ObjectWrites(parse, fields));
  }

  lemma {:induction false} NonNumericWrites(parse: Parser, fields: seq<(string, Json)>)
    requires forall k :: 0 <= k < |fields| ==> ParseInt(fields[k].0).None?
    ensures forall m :: 0 <= m < |ObjectWrites(parse, fields)| ==>
      ObjectWrites(parse, fields)[m].Place? && !IsArrayIndex(ObjectWrites(parse, fields)[m].index)
    decreases |fields|
  {
    if |fields| > 0 {
      NonNumericWrites(parse, fields[1..]);
    }
  }

  /** An indexed line `N: "…"` of the array branch. */
  predicate IsIndexedItem(item: Json) {
    item.JStr? && MatchIndexed(item.s).Some?
  }

  /** The slot an indexed line goes to, `parseInt(N, 10)`. */
  function LineIndex(item: Json): nat
    requires IsIndexedItem(item)
  {
    var d := MatchIndexed(item.s).value.digits;
    MatchIndexedSound(item.s);
    DecimalValue(d)
  }

  /** The value an indexed line contributes. */
  function LineValue(parse: Parser, item: Json): Json
    requires IsIndexedItem(item)
  {
    IndexedValue(parse, Unescape(MatchIndexed(item.s).value.content))
  }

  /** An indexed line is one placement at `parseInt` of its digits, which is
      their decimal value. */
  lemma IndexedItemWrite(parse: Parser, item: Json)
    requires IsIndexedItem(item)
    ensures ArrayItemWrites(parse, item) == [Place(Some(LineIndex(item) as int), LineValue(parse, item))]
  {
    var m := MatchIndexed(item.s).value;
    MatchedDigitsParse(item.s);
    assert ArrayItemWrites(parse, item) == [Place(ParseInt(m.digits), IndexedValue(parse, Unescape(m.content)))];
  }

  /** `parseInt` reads the matched digits as their decimal value. */
  lemma MatchedDigitsParse(s: string)
    requires MatchIndexed(s).Some?
    ensures var d := MatchIndexed(s).value.digits;
      AllDigits(d) && ParseInt(d) == Some(DecimalValue(d))
  {
    var d := MatchIndexed(s).value.digits;
    MatchIndexedSound(s);
    ParseIntOfDigits(d, "");
    assert d + "" == d;
  }

  lemma {:induction false} IndexedArrayWrites(parse: Parser, items: seq<Json>)
    requires forall k :: 0 <= k < |items| ==> IsIndexedItem(items[k])
    ensures var ws := ArrayWrites(parse, items);
      && |ws| == |items|
      && forall k :: 0 <= k < |items| ==> ws[k] == Place(Some(LineIndex(items[k]) as int), LineValue(parse, items[k]))
    decreases |items|
  {
    if |items| > 0 {
      IndexedItemWrite(parse, items[0]);
      IndexedArrayWrites(parse, items[1..]);
      var ws := ArrayWrites(parse, items);
      forall k | 0 <= k < |items|
        ensures ws[k] == Place(Some(LineIndex(items[k]) as int), LineValue(parse, items[k]))
      {
        if k > 0 {
          assert ws[k] == ArrayWrites(parse, items[1..])[k - 1];
          assert items[1..][k - 1] == items[k];
        }
      }
    }
  }

  /** For an array of indexed lines, slot `i` holds the value of the last
      line numbered `i`, when `i` is an array index. */
  lemma IndexedLineWins(parse: Parser, items: seq<Json>, i: nat, k: nat)
    requires forall m :: 0 <= m < |items| ==> IsIndexedItem(items[m])
    requires k < |items| && LineIndex(items[k]) == i && i <= MaxIndex
    requires forall m :: k < m < |items| ==> LineIndex(items[m]) != i
    ensures var a := Build(NormaliseWrites(parse, JArr(items)));
      i in a.slots && a.slots[i] == LineValue(parse, items[k])
  {
    var ws := ArrayWrites(parse, items);
    assert NormaliseWrites(parse, JArr(items)) == ws;
    LastLinePlaced(parse, items, i, k);
    LastPlacementWins(ws, i, k);
  }

  /** The writes of indexed lines, seen from slot `i`: all placements, the
      `k`-th at `i`, none later at `i`. */
  lemma LastLinePlaced(parse: Parser, items: seq<Json>, i: nat, k: nat)
    requires forall m :: 0 <= m < |items| ==> IsIndexedItem(items[m])
    requires k < |items| && LineIndex(items[k]) == i && i <= MaxIndex
    requires forall m :: k < m < |items| ==> LineIndex(items[m]) != i
    ensures var ws := ArrayWrites(parse, items);
      && (forall m :: 0 <= m < |ws| ==> ws[m].Place?)
      && k < |ws| && IsArrayIndex(ws[k].index) && ws[k].index.value == i
      && ws[k].value == LineValue(parse, items[k])
      && (forall m :: k < m < |ws| ==> !(IsArrayIndex(ws[m].index) && ws[m].index.value == i))
  {
    var ws := ArrayWrites(parse, items);
    IndexedArrayWrites(parse, items);
    forall m | 0 <= m < |ws| ensures ws[m].Place? && ws[m].index == Some(LineIndex(items[m]) as int) {
      assert ws[m] == Place(Some(LineIndex(items[m]) as int), LineValue(parse, items[m]));
    }
  }

  /** The value of the last of `items` numbered `i`; `None` when no line is,
      or when `i` is past the last array index, where an assignment makes a
      plain property that `filter` never visits. */
  function LastLine(parse: Parser, items: seq<Json>, i: nat): Option<Json>
    requires forall m :: 0 <= m < |items| ==> IsIndexedItem(items[m])
    decreases |items|
  {
    if |items| == 0 || i > MaxIndex then None
    else if LineIndex(items[|items| - 1]) == i then Some(LineValue(parse, items[|items| - 1]))
    else LastLine(parse, items[..|items| - 1], i)
  }

  /** Slots `0 .. n - 1` by the last line numbered with each, `null` where
      none is. */
  function LineTable(parse: Parser, items: seq<Json>, n: nat): (vs: seq<Json>)
    requires forall m :: 0 <= m < |items| ==> IsIndexedItem(items[m])
    ensures |vs| == n
  {
    seq(n, i requires 0 <= i < n => LastLine(parse, items, i).GetOr(JNull))
  }

  /** An array of indexed lines normalises to the truthy last-written line
      values in ascending line-number order: a later line with the same
      number replaces an earlier one, and a gap in the numbering leaves
      nothing behind. */
  lemma IndexedLinesCompact(parse: Parser, items: seq<Json>)
    requires forall m :: 0 <= m < |items| ==> IsIndexedItem(items[m])
    ensures var a := Build(NormaliseWrites(parse, JArr(items)));
      Normalise(parse, JArr(items)) == FilterTruthy(LineTable(parse, items, a.length))
  {
    var ws := ArrayWrites(parse, items);
    assert NormaliseWrites(parse, JArr(items)) == ws;
    var a := Build(ws);
    IndexedArrayWrites(parse, items);
    forall i | 0 <= i < a.length ensures SlotValues(a, a.length)[i] == LineTable(parse, items, a.length)[i] {
      LastPlacedLines(parse, items, ws, i);
      PlacesLastWins(ws, i);
    }
    assert SlotValues(a, a.length) == LineTable(parse, items, a.length);
  }

  /** The writes of indexed lines place exactly where `LastLine` looks. */
  lemma {:induction false} LastPlacedLines(parse: Parser, items: seq<Json>, ws: seq<Write>, i: nat)
    requires forall m :: 0 <= m < |items| ==> IsIndexedItem(items[m])
    requires |ws| == |items|
    requires forall m :: 0 <= m < |items| ==> ws[m] == Place(Some(LineIndex(items[m]) as int), LineValue(parse, items[m]))
    ensures LastPlaced(ws, i) == LastLine(parse, items, i)
    decreases |items|
  {
    if |items| > 0 {
      var n := |items| - 1;
      forall m | 0 <= m < n
        ensures ws[..n][m] == Place(Some(LineIndex(items[..n][m]) as int), LineValue(parse, items[..n][m]))
      {
        assert ws[..n][m] == ws[m] && items[..n][m] == items[m];
      }
      LastPlacedLines(parse, items[..n], ws[..n], i);
    }
  }

  /** A slot no line is numbered with stays a hole. */
  lemma UnnumberedSlotIsHole(parse: Parser, items: seq<Json>, i: nat)
    requires forall m :: 0 <= m < |items| ==> IsIndexedItem(items[m])
    requires forall m :: 0 <= m < |items| ==> LineIndex(items[m]) != i
    ensures i !in Build(NormaliseWrites(parse, JArr(items))).slots
  {
    var ws := ArrayWrites(parse, items);
    assert NormaliseWrites(parse, JArr(items)) == ws;
    IndexedArrayWrites(parse, items);
    LastPlacedNone(ws, i);
    PlacesLastWins(ws, i);
  }
}
