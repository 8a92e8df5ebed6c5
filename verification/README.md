# Story questions and writing-practice pages, modelled in Dafny

This project models the writing-practice web application (a Next.js site in
which the assistant "章同学" grades essays and sets story exercises). At its
heart is the **story-question pipeline**:

- `parseAndStoreStoryData` reads the workflow's new response format.
- The exercise page's `handleGenerateStoryClick` and `processOriginalFormat`
  accept the new format or several older shapes of `question_data`.
- The word-practice page parses each stored question, converts the list and
  runs the quiz.
- The parse-data page submits pasted text to the parser.

Around it sit the small presentation rules of the other pages:

- grade names and record status on the correction records;
- the error-book search;
- feedback grouping, score moods and progress cards;
- the upload form;
- the grading progress;
- the navigation bars.

The pipeline's main promise is graceful degradation: no input makes it throw.
Every shape it cannot read becomes a placeholder record. The model is pure:

- `JSON.parse` is a parameter `parse: Parser`. `Parsed` is the outcome (a value
  or a `SyntaxError`).
- The network response is an input.
- `localStorage` writes are a returned `Writes` record.
- Timers are explicit ticks.
- Throwing is an `Option`/variant result.

JSON values are the datatype `Json`. An object is a sequence of `(key, value)`
pairs in `Object.entries` order. JavaScript truthiness is `Truthy`/`Present`.
The sparse array the legacy path fills (`parsedQuestions[index] = …` and
`push`) is `SparseList.Sparse`: a map from index to value plus a length.

The modules, one per source file or concern:

| module | file | models |
|---|---|---|
| Wrappers | wrappers.dfy | `Option` |
| JsString | js_string.dfy | `trim`, `includes`, `startsWith`, `parseInt`, `String(n)`, `replace(/…/g, …)` on strings |
| Json | json.dfy | JSON values, property access, truthiness, object literals |
| SparseList | sparse_list.dfy | array writes and `filter(Boolean)` |
| StoryParser | story_parser.dfy | src/utils/storyDataParser.js |
| LegacyPatterns | legacy_patterns.dfy | the regular expressions and unescaping of src/app/exercise/page.js |
| StoryGeneration | story_generation.dfy | src/app/exercise/page.js |
| WordPractice | word_practice.dfy | src/app/exercise/word-practice/page.js |
| ParseData | parse_data.dfy | src/app/exercise/parse-data/page.js |
| Pipeline | pipeline.dfy | what the producers store, read by the practice page |
| CorrectionRecords | correction_records.dfy | src/app/correction-records/page.js, src/lib/constants.js |
| ErrorBook | error_book.dfy | src/app/error-book/page.js |
| ZhangFeedback | zhang_feedback.dfy | src/components/zhang/ZhangFeedback.jsx |
| ZhangCard | zhang_card.dfy | src/components/zhang/ZhangCard.jsx |
| SubmitForm | submit_form.dfy | src/app/page.js |
| ResultsProgress | results_progress.dfy | src/app/results/page.js |
| Navigation | navigation.dfy | src/components/SideNav.jsx, TopNav.jsx, BottomNav.jsx |

The central composed result is `Pipeline.ParserThenPracticeIsEmpty` together
with `Pipeline.GenerateThenPracticeIsEmpty`:

- the story parser stores its questions as prose, and so does the generation page on a failed request, on new-format prose questions, with no data found and when the lookup throws (its legacy line formats are not covered);
- the practice page's `JSON.parse(item.question)` rejects prose;
- so the practice page loads no question at all.

`WordPractice.Reachable` then shows that the page goes straight to the
completion screen, which shows "暂无题目" in place of a score. The separate no-questions screen (src/app/exercise/word-practice/page.js:285-309) is never reached.

## Model

| member | source | states |
|---|---|---|
| JsString.TrimStart | src/app/exercise/parse-data/page.js:20 | The result is a suffix of the input, what was removed is white space, and the result does not start with white space |
| JsString.TrimEnd | src/app/correction-records/page.js:85 | The result is a prefix of the input, what was removed is white space, and the result does not end with white space |
| JsString.TrimEmptyIffBlank | src/app/exercise/parse-data/page.js:20 | `input.trim()` is empty exactly when the input is all white space |
| JsString.Includes | src/app/error-book/page.js:47-50 | `s.includes(t)` holds exactly when `t` occurs in `s` at some position, and always for the empty `t` |
| JsString.IncludesFrom | src/app/error-book/page.js:47-50 | The search from position `i` succeeds exactly when `t` occurs at some position at or after `i` |
| JsString.DigitPrefix | src/app/exercise/page.js:184 | The result is the longest prefix made only of decimal digits |
| JsString.DigitPrefixOf | src/app/exercise/page.js:184 | Digits followed by a non-digit have exactly those digits as their digit prefix |
| JsString.NatToString | src/app/exercise/parse-data/page.js:36 | `String(n)` is a non-empty digit string without a leading zero whose decimal value is `n` |
| JsString.IntToString | src/app/exercise/parse-data/page.js:36 | `String(n)` of an integer is never empty |
| JsString.ParseIntNaN | src/app/exercise/page.js:184 | `parseInt(s, 10)` is `NaN` exactly when, after leading white space and one optional sign, no digit follows |
| JsString.ParseIntOfNatToString | src/app/exercise/page.js:184 | `parseInt(String(n))` gives back `n`: the two are inverse on naturals |
| JsString.ParseIntOfDigits | src/app/exercise/page.js:184 | `parseInt` of digits followed by a non-digit is the value of those digits; the rest is ignored |
| JsString.ParseIntOfDigitStart | src/app/exercise/page.js:274-276 | A key starting with a digit parses to the value of its digit prefix (`"2abc"` gives 2) |
| JsString.ReplaceAll | src/app/exercise/page.js:188-191 | A global replacement by a text no longer than the pattern never lengthens the string |
| JsString.ReplaceAllAbsent | src/app/exercise/page.js:188-191 | Text in which the pattern does not occur is left unchanged |
| Json.Lookup | src/utils/storyDataParser.js:15 | A property is found exactly when some entry has that key, and what is found is that entry's value |
| Json.LookupAt | src/utils/storyDataParser.js:15 | Property access reads the first entry with the key |
| Json.Record | src/utils/storyDataParser.js:32-40 | An object literal is an object with at most one property per listed field; `undefined` fields are omitted |
| Json.GetRecord | src/utils/storyDataParser.js:32-40 | Reading a property of a literal with distinct keys gives the value it was written with, or `undefined` for a key not listed |
| Json.GetRecordAt | src/utils/storyDataParser.js:32-40 | Reading back the `i`-th listed field gives the `i`-th value |
| Json.FirstEntryAt | src/utils/storyDataParser.js:32-40 | With distinct keys, a listed field is found at its own position |
| Json.FirstEntryAbsent | src/utils/storyDataParser.js:32-40 | A key not listed reads as `undefined` |
| Json.SkipJsonSpace | src/app/exercise/word-practice/page.js:82 | Skipping the white space `JSON.parse` allows never lengthens the text |
| Json.PlainTextByFirstChar | src/app/exercise/word-practice/page.js:82 | Text whose first character is neither JSON white space nor a possible start of a JSON value is prose, which `JSON.parse` rejects |
| SparseList.Apply | src/app/exercise/page.js:194-205 | `push` writes at the current length and adds one; assignment at an array index stores there and raises the length to cover it; any other index leaves the array unchanged; every slot stays below the length |
| SparseList.ApplyAll | src/app/exercise/page.js:174-289 | Writes in order keep the array valid and never shorten it |
| SparseList.Build | src/app/exercise/page.js:172 | The array built from `[]` by the writes is valid |
| SparseList.CompactUpTo | src/app/exercise/page.js:292 | `filter(Boolean)` keeps only truthy values, each taken from a stored slot, and loses no truthy slot; it is exactly the plain filter of the slots read in ascending index order with holes as `null` |
| SparseList.AppendsDense | src/app/exercise/page.js:207-215 | A list built by pushes alone is dense: slot `i` holds the `i`-th value pushed |
| SparseList.CompactDense | src/app/exercise/page.js:292 | Compacting a dense prefix is the plain filter of its values |
| SparseList.AppendsCompact | src/app/exercise/page.js:292 | Pushing values and compacting is filtering them: nothing lost, nothing reordered |
| SparseList.PlacesLastWins | src/app/exercise/page.js:194-205 | After assignments only, a slot holds what the last assignment to it wrote, and is a hole otherwise |
| SparseList.ApplyAllSnoc | src/app/exercise/page.js:174-289 | Applying one more write at the end is one more step after the others |
| SparseList.DroppedWrites | src/app/exercise/page.js:276-282 | Assignments at indices that are not array indices (NaN, negative, too large) leave the array as it was |
| SparseList.LastPlacedAt | src/app/exercise/page.js:194-205 | The last assignment at an index decides the value recorded for it |
| SparseList.LastPlacementWins | src/app/exercise/page.js:194-205 | After assignments only, slot `i` holds the value of the last assignment at `i` |
| SparseList.LastPlacedNone | src/app/exercise/page.js:194-205 | Without an assignment at `i`, no value is recorded for it |
| StoryParser.Placeholder | src/utils/storyDataParser.js:56-60 | The placeholder is exactly one record; reading it back gives id 0, the given question, and a selection list of one selection whose text is 重试 and whose feedback is 请重新尝试 |
| StoryParser.Unwrap | src/utils/storyDataParser.js:15-21 | The inner object is read exactly when `data` is a string that parses to a truthy value with an `output` array |
| StoryParser.MapSelections | src/utils/storyDataParser.js:36-39 | Mapping succeeds exactly when no selection is `null`, keeps the count, and maps `selection` to `text` and `answer` to `feedback` position by position |
| StoryParser.QuestionRecord | src/utils/storyDataParser.js:32-40 | The record has `id` = the position, and copies `question` and `img` of the item and the mapped selections |
| StoryParser.MapOutput | src/utils/storyDataParser.js:31-41 | Mapping succeeds exactly when every item is an object with a `selection_list` array without `null`, and keeps the item count |
| StoryParser.MappedQuestion | src/utils/storyDataParser.js:31-41 | The `k`-th mapped record has id `k`, the `k`-th item's `question` and `img`, and one selection per entry of its `selection_list` with text and feedback copied |
| StoryParser.SelectionFields | src/utils/storyDataParser.js:37-38 | A built selection gives back its text and feedback |
| StoryParser.TitleWrite | src/utils/storyDataParser.js:25-28 | `storyTitle` is written exactly when `title` is truthy |
| StoryParser.FromData | src/utils/storyDataParser.js:15-62 | The value written under `storyQuestions` is the returned list |
| StoryParser.ParseAndStore | src/utils/storyDataParser.js:7-74 | The stored list is always the returned list. A string that does not parse gives exactly one "解析数据时出错: " placeholder carrying the parser's message |
| StoryParser.ParseExampleStoryData | src/utils/storyDataParser.js:83-85 | Parsing the example string gives exactly what `parseAndStoreStoryData` gives for it |
| StoryParser.NewFormatRecords | src/utils/storyDataParser.js:15-47 | For the new format the result has one record per `output` item with id = position and `question`/`img` copied, and the title is written from the inner `title` |
| StoryParser.FallbacksGiveOnePlaceholder | src/utils/storyDataParser.js:15-62 | Each of the following gives exactly one "数据格式不受支持…" placeholder and never throws: `data` missing or not a string, an inner parse failure, no `output` array, an item the mapping throws on |
| StoryParser.EmptyIffEmptyOutput | src/utils/storyDataParser.js:31-62 | The result is empty exactly when the new format is read and its `output` is an empty array |
| StoryParser.TitleOnlyWhenTruthy | src/utils/storyDataParser.js:25-28 | `storyTitle` is written only from a truthy `title` of a readable inner object, and only on the new-format path |
| LegacyPatterns.MatchIndexedSound | src/app/exercise/page.js:181 | Every match of `^(\d+):\s*"(.*)"$` has the pattern's shape: the input is the digits, a colon, white space and the quoted content, with no line break in the content |
| LegacyPatterns.MatchIndexedComplete | src/app/exercise/page.js:181 | Every string of that shape is matched, with the digits and content as the captures |
| LegacyPatterns.UnescapeEscape | src/app/exercise/page.js:188-191 | For text without a backslash, the three replacements undo the upstream escaping of quotes and newlines |
| LegacyPatterns.NewlinePass | src/app/exercise/page.js:189 | The first replacement turns escaped newlines back into newlines and keeps escaped quotes |
| LegacyPatterns.QuotePass | src/app/exercise/page.js:190 | The second replacement turns escaped quotes back into quotes |
| LegacyPatterns.NoBackslashUnchanged | src/app/exercise/page.js:191 | The third replacement, and any pattern starting with a backslash, leaves text without backslashes unchanged |
| LegacyPatterns.UnescapeReadsEscapedBackslashAsNewline | src/app/exercise/page.js:188-191 | The replacements are not an inverse of escaping once the text holds a backslash: an escaped `\n` comes back as a backslash and a line break |
| LegacyPatterns.MatchQuestionAt | src/app/exercise/page.js:200 | A match at a position is a non-empty text without quotes |
| LegacyPatterns.QuotedBody | src/app/exercise/page.js:200 | `"([^"]+)"` at the start gives a non-empty text without quotes |
| LegacyPatterns.QuotedBodyOf | src/app/exercise/page.js:200 | A quote, a quote-free text and a closing quote give that text |
| LegacyPatterns.NonQuotePrefix | src/app/exercise/page.js:200 | The result is the longest prefix without a double quote |
| LegacyPatterns.FirstMatch | src/app/exercise/page.js:200 | A left-to-right search returns the value at the first position that matches, and nothing exactly when no position matches |
| LegacyPatterns.FindQuestion | src/app/exercise/page.js:200 | The `"question"` fallback returns the match at the leftmost position that matches, and nothing when no position does |
| LegacyPatterns.FindQuestionInBrokenObject | src/app/exercise/page.js:197-206 | A broken object text that starts `{"question": "q"` yields `q` |
| LegacyPatterns.QuestionAfterBrace | src/app/exercise/page.js:200 | In such text the pattern matches right after the brace, with `q` as the capture |
| StoryGeneration.FirstPresent | src/app/exercise/page.js:141-156 | The lookup returns the value at the first path whose `&&` chain is truthy, and nothing exactly when no path is truthy |
| StoryGeneration.DataFallback | src/app/exercise/page.js:157-166 | The fifth path gives only truthy values |
| StoryGeneration.LegacyLookup | src/app/exercise/page.js:141-166 | The four fixed paths win in order over `data`; a throw happens only when none of them is truthy and `data` is |
| StoryGeneration.IndexedValue | src/app/exercise/page.js:188-206 | An indexed line contributes the parsed content when it parses, and otherwise a truthy `{question: …}` object |
| StoryGeneration.ArrayItemWrites | src/app/exercise/page.js:174-215 | An array item writes at most once: a string always, an object or array is pushed as it is, `null` and other primitives write nothing |
| StoryGeneration.ArrayWrites | src/app/exercise/page.js:174-221 | The array branch writes at most once per item |
| StoryGeneration.ObjectEntryWrites | src/app/exercise/page.js:222-258 | An entry writes at most once, always as an assignment at `parseInt(key)` |
| StoryGeneration.ObjectWrites | src/app/exercise/page.js:222-260 | The object branch writes at most once per entry, and only by assignment |
| StoryGeneration.ParsedArrayItem | src/app/exercise/page.js:266-271 | Object-typed items are kept as they are, and the others become `{question: String(item)}` |
| StoryGeneration.ParsedObjectWrites | src/app/exercise/page.js:273-283 | A parsed object writes at most once per entry, only at numeric keys |
| StoryGeneration.StringWrites | src/app/exercise/page.js:261-289 | Text that does not parse pushes exactly `{question: text}` |
| StoryGeneration.Normalise | src/app/exercise/page.js:172-292 | The normalised list holds only truthy values |
| StoryGeneration.ProcessOriginalFormat | src/app/exercise/page.js:136-300 | With nothing found the list is one "API未返回问题数据" question ending with the theme; it throws exactly when the lookup throws |
| StoryGeneration.NewFormat | src/app/exercise/page.js:72-101 | The new format is read exactly when the unwrap succeeds and every `output` item maps |
| StoryGeneration.HandleGenerate | src/app/exercise/page.js:72-309 | `storyQuestions` is written only with a non-empty list; a failed request stores one "请求时发生错误…" placeholder carrying the error message, and no title |
| StoryGeneration.NewFormatAgreesWithParser | src/app/exercise/page.js:76-101 | When the new format reads, the page stores exactly the records and title `parseAndStoreStoryData` stores for the same response |
| StoryGeneration.UnparseableDataGivesProcessingError | src/app/exercise/page.js:109-160 | An unparseable string `data` with no truthy fixed path ends in exactly one "处理问题数据时出错" placeholder |
| StoryGeneration.NothingFoundNamesTheme | src/app/exercise/page.js:293-299 | With nothing found and nothing thrown, the page stores one question "API未返回问题数据…" ending with the theme |
| StoryGeneration.PlainArrayKeepsOrder | src/app/exercise/page.js:174-292 | An array without indexed lines normalises to its pushed values in order: strings as `{question: item}`, objects as they are, `null` and other primitives dropped |
| StoryGeneration.PlainArrayWrites | src/app/exercise/page.js:207-215 | Such an array is written by pushes alone, one per kept item |
| StoryGeneration.AppendsOfTruthy | src/app/exercise/page.js:292 | Pushing truthy values and compacting gives the values back |
| StoryGeneration.PlainValues | src/app/exercise/page.js:207-215 | The pushed values are all truthy |
| StoryGeneration.PlainItemWrites | src/app/exercise/page.js:207-215 | An item that is not an indexed line is pushed, or skipped |
| StoryGeneration.PlainArrayAppends | src/app/exercise/page.js:174-215 | The writes of such an array are the pushes of its values |
| StoryGeneration.AppendsConcat | src/app/exercise/page.js:207-215 | Pushing two lists is pushing the first, then the second |
| StoryGeneration.AllTruthyFilter | src/app/exercise/page.js:292 | `filter(Boolean)` keeps a list of truthy values whole |
| StoryGeneration.NonNumericKeysDropped | src/app/exercise/page.js:222-292 | An object whose keys have no numeric prefix normalises to the empty list |
| StoryGeneration.NonNumericWrites | src/app/exercise/page.js:224-258 | Its writes are all assignments at a `NaN` index |
| StoryGeneration.IndexedItemWrite | src/app/exercise/page.js:179-206 | An indexed line is one assignment at `parseInt` of its digits |
| StoryGeneration.IndexedArrayWrites | src/app/exercise/page.js:179-206 | An array of indexed lines writes one assignment per line, in order |
| StoryGeneration.IndexedLineWins | src/app/exercise/page.js:179-206 | For an array of indexed lines, slot `i` holds the value of the last line numbered `i` |
| StoryGeneration.IndexedLinesCompact | src/app/exercise/page.js:179-292 | An array of indexed lines normalises to the truthy values of the last line numbered 0, 1, 2, … in that order: a later line replaces an earlier one with the same number, and unnumbered slots and numbers past the last array index leave nothing |
| StoryGeneration.LastPlacedLines | src/app/exercise/page.js:179-206 | The last assignment at slot `i` is the last line numbered `i`, and there is none when `i` is not an array index |
| StoryGeneration.MatchedDigitsParse | src/app/exercise/page.js:184 | `parseInt(match[1], 10)` of the matched digits is their decimal value |
| StoryGeneration.LastLinePlaced | src/app/exercise/page.js:179-206 | The last line numbered `i` is the last assignment at `i` |
| StoryGeneration.UnnumberedSlotIsHole | src/app/exercise/page.js:179-292 | A slot no line is numbered with stays a hole, which the compaction drops |
| WordPractice.ParseItem | src/app/exercise/word-practice/page.js:74-99 | Only a `null` item throws. A missing `question` records the error 'No question field'. Otherwise the question parses to `parsedQuestion` or records the parser's message |
| WordPractice.ParseItems | src/app/exercise/word-practice/page.js:74-99 | The map throws exactly when some item is `null`, and otherwise parses each item in place |
| WordPractice.KeptIffParsed | src/app/exercise/word-practice/page.js:21-99 | An item is kept exactly when it has a `question` whose text parses to a truthy value, and then keeps that value |
| WordPractice.KeptQuestions | src/app/exercise/word-practice/page.js:23 | The kept questions are truthy, each comes from a kept item, and every kept item contributes its question |
| WordPractice.KeptQuestionsConcat | src/app/exercise/word-practice/page.js:23 | Filtering distributes over concatenation, so it keeps the input order |
| WordPractice.OrEmpty | src/app/exercise/word-practice/page.js:40 | `x \|\| ""` is either truthy or the empty string |
| WordPractice.FeedbackLastWins | src/app/exercise/word-practice/page.js:39-42 | The feedback of an option text is the answer of the last option showing it |
| WordPractice.FeedbackKeys | src/app/exercise/word-practice/page.js:39-42 | A text has feedback exactly when some option shows it |
| WordPractice.ToQuestion | src/app/exercise/word-practice/page.js:24-48 | The converted question has the given id, correct index 0 and an empty image |
| WordPractice.QuestionOptions | src/app/exercise/word-practice/page.js:27-46 | The options are the selection texts in order. The correct answer is the first selection's text, or "" when there is none |
| WordPractice.Convert | src/app/exercise/word-practice/page.js:21-50 | Conversion throws exactly when a kept question has an unusable selection list; otherwise one question per kept item, numbered 1..n, each with correct index 0 |
| WordPractice.LoadQuestions | src/app/exercise/word-practice/page.js:63-128 | Nothing stored, or something other than an array, gives no questions; the questions are always numbered 1..n with correct index 0 |
| WordPractice.NothingParsedNoQuestions | src/app/exercise/word-practice/page.js:74-111 | When no item's question parses to a truthy value, the page loads no question |
| WordPractice.NoneKept | src/app/exercise/word-practice/page.js:23 | When no item is kept, the filter is empty |
| WordPractice.Select | src/app/exercise/word-practice/page.js:132-135 | A selection changes only the selected answer, and is frozen once feedback shows |
| WordPractice.Check | src/app/exercise/word-practice/page.js:137-145 | Without a selection nothing changes; otherwise feedback shows and exactly one life goes for a wrong answer |
| WordPractice.Next | src/app/exercise/word-practice/page.js:171-180 | Before the last question the index advances by one with selection and feedback cleared; on the last it becomes the question count; lives are kept |
| WordPractice.Retry | src/app/exercise/word-practice/page.js:182-187 | Retry restores 3 lives, index 0, no selection and no feedback, and keeps the questions |
| WordPractice.Percentage | src/app/exercise/word-practice/page.js:243 | The percentage is 0 without questions |
| WordPractice.PercentageBounds | src/app/exercise/word-practice/page.js:243 | The percentage is the nearest whole percent with halves rounded up, and lies in [0, 100] |
| WordPractice.Render | src/app/exercise/word-practice/page.js:190-313 | The screens are tested in the order loading, then no lives, then past the last question, and a playing screen always has a current question |
| WordPractice.InitialInv | src/app/exercise/word-practice/page.js:54-60 | The initial state satisfies the invariant and shows the loading screen |
| WordPractice.StepInv | src/app/exercise/word-practice/page.js:132-187 | Every enabled event keeps the invariant: lives in [0, 3] and lost lives never more than the questions answered |
| WordPractice.RunInv | src/app/exercise/word-practice/page.js:132-187 | The invariant holds after any run of enabled events |
| WordPractice.Reachable | src/app/exercise/word-practice/page.js:190-287 | On every reachable state lives stay in [0, 3]. The completion screen counts between 0 and all questions correct, with a percentage in [0, 100]. The "暂无题目" screen never shows: with no questions the completion screen appears |
| WordPractice.EmptyLoadCompletes | src/app/exercise/word-practice/page.js:240-268 | Loading an empty list goes straight to the completion screen with no question counted, where "暂无题目" stands in place of a score |
| WordPractice.CheckOnce | src/app/exercise/word-practice/page.js:137-145 | A check takes exactly one life for a wrong answer and none for the right one, and cannot be repeated on the same question |
| WordPractice.Mood | src/app/exercise/word-practice/page.js:148-154 | The avatar mood is one of thinking, happy or sad |
| WordPractice.FeedbackContent | src/app/exercise/word-practice/page.js:157-169 | A feedback line shows exactly after a check with a selection, and is never empty |
| WordPractice.CheckMood | src/app/exercise/word-practice/page.js:148-154 | After a check the avatar is happy exactly when no life was lost |
| ParseData.HandleSubmit | src/app/exercise/parse-data/page.js:19-55 | Blank input is refused with "请输入有效的JSON数据" before the parser runs. Otherwise the parser runs, processing ends, and success means a non-empty result |
| ParseData.MalformedReportedAsOne | src/app/exercise/parse-data/page.js:33-39 | Text that does not parse, or is not the new format, is reported as a success with count 1 |
| ParseData.FailureMeansEmptyOutput | src/app/exercise/parse-data/page.js:33-45 | After the parser ran, the only failure is an empty `output` |
| ParseData.SubmitCountsTwo | src/app/exercise/parse-data/page.js:36 | Two stored questions are reported as "成功解析并存储了2个问题！" |
| ParseData.Choice | src/app/exercise/parse-data/page.js:59-66 | A choice of the payload has the given `answer` and `selection` |
| ParseData.Item | src/app/exercise/parse-data/page.js:59-66 | An item of the payload has the given question and selection list |
| ParseData.Inner | src/app/exercise/parse-data/page.js:59-66 | The inner object has the given `output` and `title` |
| ParseData.ExamplePayload | src/app/exercise/parse-data/page.js:59-66 | The example payload's `data` is the inner text |
| ParseData.ExampleUnwraps | src/app/exercise/parse-data/page.js:59-66 | The example unwraps to its inner object, whose two items map and whose title is written |
| ParseData.MappedOffers | src/utils/storyDataParser.js:31-41 | An item whose selection list is built from pairs maps to a question offering exactly those texts with those feedbacks, in order |
| ParseData.SelectionsOfChoices | src/utils/storyDataParser.js:36-39 | Mapping the built choices turns each (answer, selection) into (feedback, text), keeping count and order |
| ParseData.MappedId | src/utils/storyDataParser.js:33 | A mapped question's id is its position |
| ParseData.ExampleSelections | src/app/exercise/parse-data/page.js:59-66 | The example's questions offer 地图/书籍/照片/信件 and 斑驳/明亮/暗淡/均匀 in that order, each with "你真棒！" as the first feedback |
| ParseData.ExampleOutcome | src/app/exercise/parse-data/page.js:59-66 | Storing the example returns the two mapped questions and writes them with the title "章同学的校园冒险" |
| ParseData.ExampleParsesToTwoQuestions | src/app/exercise/parse-data/page.js:57-69 | Submitting the example reports two questions, with ids 0 and 1, their four choices each, and the stored title |
| Pipeline.PlainQuestionsLoadNothing | src/app/exercise/word-practice/page.js:74-111 | A stored list whose questions are all prose loads no practice question |
| Pipeline.PlainByPrefix | src/app/exercise/word-practice/page.js:82 | Text that starts with a character no JSON value starts with is prose, whatever follows |
| Pipeline.PlaceholderIsPlain | src/utils/storyDataParser.js:56-60 | The placeholder record asks its question in prose |
| Pipeline.QuestionOnlyIsPlain | src/app/exercise/page.js:207-211 | A `{question: text}` record with prose text asks in prose |
| Pipeline.MappedIsPlain | src/utils/storyDataParser.js:34 | The mapped questions copy each item's prose question |
| Pipeline.ParserStoresProse | src/utils/storyDataParser.js:7-74 | Whatever `parseAndStoreStoryData` stores asks its questions in prose |
| Pipeline.ParserThenPracticeIsEmpty | src/app/exercise/word-practice/page.js:82 | After the story parser stores its result, the practice page has no question |
| Pipeline.GenerateThenPracticeIsEmpty | src/app/exercise/page.js:72-133 | After the generation page stores its result, the practice page has no question: on a failed request, on the new format with prose questions, with no data found, and when the lookup throws |
| Pipeline.FailedGenerateIsEmpty | src/app/exercise/page.js:301-309 | A failed request stores a list that loads no question |
| Pipeline.ProseGenerateIsEmpty | src/app/exercise/page.js:76-101 | New-format prose questions load no question |
| Pipeline.NoDataGenerateIsEmpty | src/app/exercise/page.js:293-299 | The no-data placeholder loads no question |
| Pipeline.ThrowingGenerateIsEmpty | src/app/exercise/page.js:119-127 | The processing-error placeholder loads no question |
| CorrectionRecords.GradeDisplayName | src/app/correction-records/page.js:75-77 | A code in the grade table shows its name; any other code shows as it is |
| CorrectionRecords.GradeNames | src/lib/constants.js:18-25 | A code is renamed exactly when it is in the table, and distinct table codes get distinct names |
| CorrectionRecords.FormGradesDisplay | src/app/page.js:126-137 | Of the 12 codes the form offers, exactly the first six (primary1–6) are renamed; junior1–3 and high1–3 show as raw codes |
| CorrectionRecords.RequirementText | src/app/correction-records/page.js:84-86 | A title with a non-white-space character is shown unchanged, and any other value shows "无"; a truthy non-string title throws |
| CorrectionRecords.WordCountDisplay | src/app/correction-records/page.js:194 | A truthy word count is shown as it is, and anything else as "0" |
| CorrectionRecords.Classify | src/app/correction-records/page.js:101-143 | A status is completed, processing or failed exactly for "completed", "processing" and "error" |
| CorrectionRecords.ViewStatus | src/app/correction-records/page.js:169-222 | The report button is enabled, and the card highlighted, exactly when the status is "completed" |
| CorrectionRecords.StatusViewsAgree | src/app/correction-records/page.js:101-143 | Badge and mood vary together. The report opens exactly with the badge 批改完成 and the mood happy. 未知状态 shows exactly for other statuses |
| ErrorBook.Filter | src/app/error-book/page.js:46-51 | The result holds exactly the entries whose original, correction, reason or essay contains the term, and is no longer than the list |
| ErrorBook.Render | src/app/error-book/page.js:81-88 | The count is the number listed, and "没有找到相关错题" shows exactly when no entry matches |
| ErrorBook.FilterConcat | src/app/error-book/page.js:46-51 | Filtering is order-preserving: filtering a concatenation filters each part |
| ErrorBook.FilterIdempotent | src/app/error-book/page.js:46-51 | Searching the result again with the same term changes nothing |
| ErrorBook.EmptyTermKeepsAll | src/app/error-book/page.js:9-51 | The empty term keeps every entry |
| ErrorBook.InitialView | src/app/error-book/page.js:9-88 | On opening all four entries are listed, counted 4, with no message |
| ErrorBook.IncludesTransitive | src/app/error-book/page.js:47-50 | A part of a found term is found too |
| ErrorBook.MatchesNarrow | src/app/error-book/page.js:47-50 | An entry matching a term matches every part of it |
| ErrorBook.Narrowing | src/app/error-book/page.js:46-51 | Typing more only narrows the list: filtering by a part first changes nothing |
| ZhangFeedback.FindNone | src/components/zhang/ZhangFeedback.jsx:27 | A type without a group is no group's type |
| ZhangFeedback.AddItemShape | src/components/zhang/ZhangFeedback.jsx:26-29 | A step keeps the groups in place, and opens one group at the end for a new type |
| ZhangFeedback.AddItemFind | src/components/zhang/ZhangFeedback.jsx:26-29 | A step appends the item to its own type's group and to no other |
| ZhangFeedback.AddItemTotal | src/components/zhang/ZhangFeedback.jsx:28 | A step adds exactly one item |
| ZhangFeedback.AddItemDistinct | src/components/zhang/ZhangFeedback.jsx:27 | A step never gives two groups the same type |
| ZhangFeedback.GroupItems | src/components/zhang/ZhangFeedback.jsx:25-30 | No two groups have the same type |
| ZhangFeedback.ItemsOfType | src/components/zhang/ZhangFeedback.jsx:26 | The reference: the items whose type (or '其他') is the key, in feedback order |
| ZhangFeedback.GroupItemsSpec | src/components/zhang/ZhangFeedback.jsx:25-30 | A type has a group exactly when some item has it, the group is exactly that type's items in order, and group sizes sum to the item count |
| ZhangFeedback.TypeHasGroup | src/components/zhang/ZhangFeedback.jsx:26-28 | A type has a group exactly when some item carries it |
| ZhangFeedback.ItemsOfTypeHas | src/components/zhang/ZhangFeedback.jsx:26 | A type some item carries has items |
| ZhangFeedback.GroupFeedback | src/components/zhang/ZhangFeedback.jsx:22-31 | Missing or non-array feedback gives no groups. A `null` item throws. Otherwise every item lands in a group |
| ZhangFeedback.TypeColor | src/components/zhang/ZhangFeedback.jsx:34-40 | A known type has its colour, and any other gets the colour of '其他' |
| ZhangFeedback.UntypedAndUnknownTypes | src/components/zhang/ZhangFeedback.jsx:26-128 | An untyped item goes under '其他' in grey, and an unknown type such as 拼写 gets that colour too |
| ZhangFeedback.SamplesReplaceGroups | src/components/zhang/ZhangFeedback.jsx:111-135 | For array feedback the samples show exactly when no group does; an object with a truthy `length` shows neither |
| ZhangFeedback.ScoreMood | src/components/zhang/ZhangFeedback.jsx:48 | A missing score gives 'thinking' |
| ZhangFeedback.ScoreMoodMonotone | src/components/zhang/ZhangFeedback.jsx:48 | A higher score never gives a gloomier mood, and the mood changes at 60 and 80 |
| ZhangCard.Percentage | src/components/zhang/ZhangCard.jsx:50-56 | The percentage lies in [0, 100], and is `NaN` exactly for a missing value or 0 over 0 |
| ZhangCard.PercentageProportional | src/components/zhang/ZhangCard.jsx:56 | With a positive max the bar fills in proportion, is full from `value >= max` and empty from `value <= 0` |
| ZhangCard.PercentageMonotone | src/components/zhang/ZhangCard.jsx:56 | A larger value never gives a smaller percentage |
| ZhangCard.ProgressMood | src/components/zhang/ZhangCard.jsx:59-64 | `NaN` gives 'sad' |
| ZhangCard.ProgressMoodThresholds | src/components/zhang/ZhangCard.jsx:59-64 | A known percentage gives 'happy' exactly from 80, 'default' exactly on [40, 80), 'thinking' exactly on [20, 40) and 'sad' exactly below 20 |
| ZhangCard.ProgressMoodMonotone | src/components/zhang/ZhangCard.jsx:59-64 | More progress never gives a gloomier mood |
| ZhangCard.CurrentMoodAsWritten | src/components/zhang/ZhangCard.jsx:51-66 | An omitted mood shows 'default' and a truthy mood shows itself, so the progress never decides |
| ZhangCard.FullBarIsNotHappy | src/components/zhang/ZhangCard.jsx:51-66 | A full bar without a mood shows 'default', although its progress mood is 'happy' |
| ZhangCard.CurrentMood | src/components/zhang/ZhangCard.jsx:59-66 | A given mood shows itself, and otherwise the progress decides |
| ZhangCard.CurrentMoodFollowsProgress | src/components/zhang/ZhangCard.jsx:59-66 | Under the intended rule a card without a mood follows its progress, and both rules agree whenever a mood is passed |
| ZhangCard.AchievementIcon | src/components/zhang/ZhangCard.jsx:104-123 | The given icon wins; otherwise ✓ exactly when complete and ? exactly when not |
| ZhangCard.DoneMatchesTick | src/components/zhang/ZhangCard.jsx:140-142 | "已完成" shows exactly when the default icon is a tick |
| SubmitForm.Upload | src/app/page.js:23-32 | The new files come after the existing images in order, zero files change nothing, and no other field changes |
| SubmitForm.WithoutIndex | src/app/page.js:35 | Exactly the image at the index is removed, the others keep their order, and an out-of-range index removes nothing |
| SubmitForm.ConsSplit | src/app/page.js:35 | A list is its first image and the rest |
| SubmitForm.RemoveImage | src/app/page.js:34-36 | Exactly position `i` is removed and the others keep their order; an out-of-range `i` changes nothing; no other field changes |
| SubmitForm.Reset | src/app/page.js:50-55 | Grade, word count, title and images are cleared, and the submitting flag is kept |
| SubmitForm.SubmitRule | src/app/page.js:232 | Submit is enabled exactly when not submitting with a grade, a title and an image. The word count never matters. A reset form cannot submit |
| SubmitForm.RemoveUndoesUpload | src/app/page.js:23-36 | Removing a just-uploaded image restores the form |
| ResultsProgress.Tick | src/app/results/page.js:28-35 | A tick adds 5 below 100 and gives 100 from 100 on |
| ResultsProgress.TicksClosedForm | src/app/results/page.js:25-35 | After `n` ticks progress is min(100, 30 + 5n), a multiple of 5 in [30, 100] |
| ResultsProgress.TicksMonotone | src/app/results/page.js:25-35 | Progress never goes back, and is complete from the fourteenth tick on and not before |
| ResultsProgress.RemainingSeconds | src/app/results/page.js:109 | No time remains from 100 on |
| ResultsProgress.RemainingIsTicksLeft | src/app/results/page.js:109 | On reachable progress the estimate is (100 − p)/5, the number of ticks still to come, and is 0 exactly at 100 |
| ResultsProgress.Render | src/app/results/page.js:90-119 | The waiting message and estimate show exactly while progress is below 100, and the report button is enabled exactly from 100 on |
| ResultsProgress.RenderAlongTimer | src/app/results/page.js:90-119 | Along the timer the report opens exactly from the fourteenth tick, and before that the estimate is the ticks left |
| Navigation.Active | src/components/SideNav.jsx:24-25 | An entry is active exactly when the path is its link, or the link is not '/' and the path starts with it |
| Navigation.HomeOnlyAtRoot | src/components/TopNav.jsx:20-21 | The home entry is active on '/' alone |
| Navigation.Exclusive | src/components/BottomNav.jsx:10-21 | No path activates two different destinations |
| Navigation.Clash | src/components/SideNav.jsx:25 | A path cannot start with two links that differ at a position inside both |
| Navigation.AtMostOne | src/components/SideNav.jsx:24-25 | When no two entries can be active together, at most one is |
| Navigation.NoneActive | src/components/SideNav.jsx:24-25 | Entries none of which is active give no active entry |
| Navigation.DiffersAt | src/components/SideNav.jsx:25 | A path differing from a link at a shared position does not start with it |
| Navigation.SideBarAtMostOneActive | src/components/SideNav.jsx:10-25 | The three bar entries have at most one active entry, whatever the path |
| Navigation.AppItemsAtMostOneActive | src/lib/constants.js:7-12 | The four `NAV_ITEMS` entries have at most one active entry too |
| Navigation.TopBarPrefixMatch | src/components/TopNav.jsx:21 | The test has no segment boundary: '/exercise/word-practice' and '/exercisex' activate 练习, and '/error-bookx' activates 错题本 |
| Navigation.BottomBarOnRecords | src/components/BottomNav.jsx:10-21 | On '/correction-records' the bars mark nothing, while `NAV_ITEMS` would mark its own entry |

## Left out

- The request to the story workflow (src/app/exercise/page.js:29-67) is network I/O. Its outcome is the input `Fetched` (a response value, or a failure with its message).
- The theme picked with `Math.random` (src/app/exercise/page.js:23-27) is an input string.
- The test data the exercise page can read instead of fetching (src/app/exercise/page.js:29-67) is left out.
- `storeTestStoryData` (src/utils/storyDataParser.js:92-96) only writes its argument to `localStorage` and is not modelled.
- `localStorage` is not a global store. Producers return a `Writes` record, and the practice page takes the stored value as a parameter. `JSON.stringify` followed by `JSON.parse` is taken as the identity on the stored values.
- `JSON.parse` is a parameter, not a grammar. The composed results assume one law of it, `RejectsPlainText`: text that starts (after JSON white space) with a character no JSON value can start with is rejected.
- Timers: the results page's interval is counted in ticks. The upload form's delayed submit (src/app/page.js:38-48) and the correction records' polling (src/app/correction-records/page.js:36-58) are not modelled.
- `formatDate` (src/app/correction-records/page.js:65-68) depends on date parsing and the local time zone.
- Console logging throughout.
- The catch block at src/app/exercise/page.js:216-220 is reached only when a `push` passes 2^32 − 1 elements and throws a `RangeError`, which is not modelled (see the `push` line below). Those at src/app/exercise/page.js:255-258 and src/app/exercise/parse-data/page.js:46-51 guard code that does not throw. The model has no path to any of them.
- Numbers are integers in JSON values, and `NaN` is `None`. The progress card uses exact reals, so float rounding is not modelled.
- WordPractice.Percentage: uses integer round-half-up of exact fractions instead of floating-point `Math.round`, because the float error is not modelled.
- The progress card's width style, the images' object URLs, JSX markup and CSS classes are presentation only.
- Property access reads only own properties. Prototype keys such as `toString` are not modelled; no key the pages use is one.
- Object key order is the order of the entries as given. The reordering of integer-like keys by `Object.entries` is not modelled.
- Strings are sequences of characters. UTF-16 code units and surrogate pairs are not distinguished.
- A `push` beyond 2^32 − 1 elements, which throws in JavaScript, is not modelled.
- StoryParser.ParseExampleStoryData: its contract is the equality with `parseAndStoreStoryData` that the source's one-line body gives, and nothing more.
- ZhangCard.ProgressMood, ZhangFeedback.ScoreMood, ResultsProgress.RemainingSeconds and WordPractice.Percentage: their contracts state only the edge case. Their thresholds and formulas are stated by the lemmas listed with them (`ProgressMoodThresholds` for the card's moods).
- Parsed objects are assumed to have distinct keys. `JSON.parse` keeps the last of duplicate keys, while `Get` reads the first entry; the `JSON.parse` parameter carries no law about duplicates.
- The answer check `selectedAnswer === currentQuestion?.blank?.correctAnswer` (src/app/exercise/word-practice/page.js:148) is modelled as structural equality of values. JavaScript compares objects and arrays by reference, so two equal but distinct objects would differ there.

## Findings

| source | as written | input that shows it | evidently intended | confidence | as-written member | corrected member |
|---|---|---|---|---|---|---|
| src/components/zhang/ZhangCard.jsx:51-66 | `mood` defaults to 'default', and `mood \|\| getMood()` then never calls `getMood` for an omitted mood | `value = 100` with no `mood`: the avatar is 'default' although `getMood` gives 'happy' | An omitted mood follows the progress thresholds of `getMood` | not executed | ZhangCard.CurrentMoodAsWritten | ZhangCard.CurrentMood |
