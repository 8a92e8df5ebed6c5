/**
 * The word-practice page: it reads the stored `storyQuestions`, parses each
 * item's `question` text as JSON, converts the successes into practice
 * questions, and runs a quiz over them with three lives.
 *
 * The stored list is given as the value `JSON.parse` returns for the stored
 * text (`None` when nothing is stored). Strict equality `===` between two
 * values is modelled as equality of `Json` values.
 */
module WordPractice {
  import opened Wrappers
  import opened JsString
  import opened Json

  const NoQuestionField: string := "No question field"

  /** An item after its `question` was parsed: `parsedQuestion` is `null`
      when there was nothing to parse or parsing failed, and `error` says
      why (`None` for `null`). */
  datatype Attempt = Attempt(parsedQuestion: Json, error: Option<string>)

  /** The per-item step of the load. It catches every failure of its own,
      except for a `null` item: reading `item.question` throws, and the
      catch block reads `item.question` again while logging, so the error
      escapes (`None`). */
  function ParseItem(parse: Parser, item: Json): (r: Option<Attempt>)
    ensures r.None? <==> item.JNull?
    ensures r.Some? ==>
      var question := Get(item, "question");
      && (r.value.error.None? <==> Present(question) && parse(ToJsString(question.value)).Ok?)
      && (r.value.error.None? ==> r.value.parsedQuestion == parse(ToJsString(question.value)).value)
      && (r.value.error.Some? ==> r.value.parsedQuestion == JNull)
  {
    if item.JNull? then None
    else
      var question := Get(item, "question");
      if !Present(question) then Some(Attempt(JNull, Some(NoQuestionField)))
      else match parse(ToJsString(question.value))
        case Ok(v) => Some(Attempt(v, None))
        case SyntaxError(message) => Some(Attempt(JNull, Some(message)))
  }

  /** `storyQuestions.map(…)`: `None` when some item throws. */
  function ParseItems(parse: Parser, items: seq<Json>): (r: Option<seq<Attempt>>)
    ensures r.Some? <==> forall k :: 0 <= k < |items| ==> !items[k].JNull?
    ensures r.Some? ==> |r.value| == |items|
    ensures r.Some? ==> forall k :: 0 <= k < |items| ==> Some(r.value[k]) == ParseItem(parse, items[k])
  {
    if forall k :: 0 <= k < |items| ==> !items[k].JNull? then
      Some(seq(|items|, k requires 0 <= k < |items| => ParseItem(parse, items[k]).value))
    else None
  }

  /** `item.parsedQuestion && !item.error`. */
  predicate Kept(a: Attempt) {
    Truthy(a.parsedQuestion) && (a.error.None? || a.error.value == "")
  }

  /** An item is kept exactly when it has a `question` whose text parses to
      a truthy value. */
  lemma KeptIffParsed(parse: Parser, item: Json)
    requires !item.JNull?
    ensures var a := ParseItem(parse, item).value;
      Kept(a) <==>
        && Present(Get(item, "question"))
        && parse(ToJsString(Get(item, "question").value)).Ok?
        && Truthy(parse(ToJsString(Get(item, "question").value)).value)
    ensures var a := ParseItem(parse, item).value;
      Kept(a) ==> a.parsedQuestion == parse(ToJsString(Get(item, "question").value)).value
  {
  }

  /** The parsed questions of the kept items, in input order. */
  function KeptQuestions(attempts: seq<Attempt>): (r: seq<Json>)
    ensures |r| <= |attempts|
    ensures forall m :: 0 <= m < |r| ==> Truthy(r[m])
    ensures forall k :: 0 <= k < |attempts| && Kept(attempts[k]) ==> attempts[k].parsedQuestion in r
    ensures forall m :: 0 <= m < |r| ==> exists k :: 0 <= k < |attempts| && Kept(attempts[k]) && attempts[k].parsedQuestion == r[m]
    decreases |attempts|
  {
    if |attempts| == 0 then []
    else
      var init, last := attempts[..|attempts| - 1], attempts[|attempts| - 1];
      var prefix := KeptQuestions(init);
      assert forall k :: 0 <= k < |init| ==> init[k] == attempts[k];
      if Kept(last) then prefix + [last.parsedQuestion] else prefix
  }

  /** Filtering distributes over concatenation, so it keeps the input order. */
  lemma {:induction false} KeptQuestionsConcat(xs: seq<Attempt>, ys: seq<Attempt>)
    ensures KeptQuestions(xs + ys) == KeptQuestions(xs) + KeptQuestions(ys)
    decreases |ys|
  {
    if |ys| > 0 {
      var init := ys[..|ys| - 1];
      assert (xs + ys)[..|xs + ys| - 1] == xs + init;
      assert (xs + ys)[|xs + ys| - 1] == ys[|ys| - 1];
      KeptQuestionsConcat(xs, init);
    } else {
      assert xs + ys == xs;
    }
  }

  /** `parsedQuestion.selection_list || []`. */
  function SelectionList(pq: Json): Json {
    var list := Get(pq, "selection_list");
    if Present(list) then list.value else JArr([])
  }

  /** Converting a question does not throw: its selection list is an array
      (a truthy non-array has no `map`) without `null` options. */
  predicate Convertible(pq: Json) {
    var list := SelectionList(pq);
    list.JArr? && forall k :: 0 <= k < |list.items| ==> !list.items[k].JNull?
  }

  predicate AllConvertible(kept: seq<Json>) {
    forall m :: 0 <= m < |kept| ==> Convertible(kept[m])
  }

  /** `x || ""`. */
  function OrEmpty(o: Option<Json>): (r: Json)
    ensures Truthy(r) || r == JStr("")
  {
    if Present(o) then o.value else JStr("")
  }

  datatype Question = Question(
    id: nat,
    image: string,
    text: Json,
    options: seq<Option<Json>>,
    selectionFeedback: map<string, Json>,
    correctAnswer: Json,
    correctIndex: nat)

  /** `selectionList.reduce((acc, o) => { acc[o.selection] = o.answer || ""; … }, {})`. */
  function FeedbackMap(options: seq<Json>): (r: map<string, Json>)
    decreases |options|
  {
    if |options| == 0 then map[]
    else
      var last := options[|options| - 1];
      FeedbackMap(options[..|options| - 1])[PropertyKey(Get(last, "selection")) := OrEmpty(Get(last, "answer"))]
  }

  /** The feedback of a text is that of the last option showing it. */
  lemma {:induction false} FeedbackLastWins(options: seq<Json>, k: nat)
    requires k < |options|
    requires forall m :: k < m < |options| ==> PropertyKey(Get(options[m], "selection")) != PropertyKey(Get(options[k], "selection"))
    ensures var key := PropertyKey(Get(options[k], "selection"));
      key in FeedbackMap(options) && FeedbackMap(options)[key] == OrEmpty(Get(options[k], "answer"))
    decreases |options|
  {
    if k < |options| - 1 {
      var init := options[..|options| - 1];
      assert init[k] == options[k];
      forall m | k < m < |init|
        ensures PropertyKey(Get(init[m], "selection")) != PropertyKey(Get(init[k], "selection"))
      {
        assert init[m] == options[m];
      }
      FeedbackLastWins(init, k);
    }
  }

  /** A text has feedback exactly when some option shows it. */
  lemma FeedbackKeys(options: seq<Json>, key: string)
    ensures key in FeedbackMap(options) <==> exists m :: 0 <= m < |options| && PropertyKey(Get(options[m], "selection")) == key
  {
    if key in FeedbackMap(options) {
      KeyHasOption(options, key);
    }
    if exists m :: 0 <= m < |options| && PropertyKey(Get(options[m], "selection")) == key {
      var m :| 0 <= m < |options| && PropertyKey(Get(options[m], "selection")) == key;
      OptionHasKey(options, m);
    }
  }

  lemma {:induction false} KeyHasOption(options: seq<Json>, key: string)
    requires key in FeedbackMap(options)
    ensures exists m :: 0 <= m < |options| && PropertyKey(Get(options[m], "selection")) == key
    decreases |options|
  {
    var n := |options| - 1;
    if PropertyKey(Get(options[n], "selection")) != key {
      var init := options[..n];
      KeyHasOption(init, key);
      var m :| 0 <= m < |init| && PropertyKey(Get(init[m], "selection")) == key;
      assert init[m] == options[m];
    }
  }

  lemma {:induction false} OptionHasKey(options: seq<Json>, m: nat)
    requires m < |options|
    ensures PropertyKey(Get(options[m], "selection")) in FeedbackMap(options)
    decreases |options|
  {
    var n := |options| - 1;
    if m < n {
      var init := options[..n];
      assert init[m] == options[m];
      OptionHasKey(init, m);
    }
  }

  /** One practice question, numbered `id`. */
  function ToQuestion(id: nat, pq: Json): (r: Question)
    requires Convertible(pq)
    ensures r.id == id && r.correctIndex == 0 && r.image == ""
  {
    var list := SelectionList(pq).items;
    var first := if |list| > 0 then Get(list[0], "selection") else None;
    Question(
      id, "", OrEmpty(Get(pq, "question")),
      seq(|list|, k requires 0 <= k < |list| => Get(list[k], "selection")),
      FeedbackMap(list),
      OrEmpty(first),
      0)
  }

  /** The options are the selection texts in order, and the correct answer
      is the first of them, or `""` when it is falsy or there is none. */
  lemma QuestionOptions(id: nat, pq: Json)
    requires Convertible(pq)
    ensures var q := ToQuestion(id, pq);
      var list := SelectionList(pq).items;
      && |q.options| == |list|
      && (forall k :: 0 <= k < |list| ==> q.options[k] == Get(list[k], "selection"))
      && (|list| == 0 ==> q.correctAnswer == JStr(""))
      && (|list| > 0 ==> q.correctAnswer == OrEmpty(q.options[0]))
      && (|list| > 0 && Present(q.options[0]) ==> q.correctAnswer == q.options[0].value)
  {
  }

  /** `convertToQuestionFormat`: `None` when it throws. */
  function Convert(attempts: seq<Attempt>): (r: Option<seq<Question>>)
    ensures r.Some? <==> AllConvertible(KeptQuestions(attempts))
    ensures r.Some? ==> |r.value| == |KeptQuestions(attempts)|
    ensures r.Some? ==> forall m :: 0 <= m < |r.value| ==> r.value[m].id == m + 1 && r.value[m].correctIndex == 0
  {
    var kept := KeptQuestions(attempts);
    if AllConvertible(kept) then
      Some(seq(|kept|, m requires 0 <= m < |kept| && Convertible(kept[m]) => ToQuestion(m + 1, kept[m])))
    else None
  }

  /** The load effect: the questions the page starts with. Anything that
      throws, and a stored value that is not an array, gives no questions. */
  function LoadQuestions(parse: Parser, stored: Option<Json>): (r: seq<Question>)
    ensures stored.None? || !stored.value.JArr? ==> r == []
    ensures forall m :: 0 <= m < |r| ==> r[m].id == m + 1 && r[m].correctIndex == 0
  {
    match stored
    case None => []
    case Some(list) =>
      if !list.JArr? then []
      else match ParseItems(parse, list.items)
        case None => []
        case Some(attempts) => Convert(attempts).GetOr([])
  }

  /** When no item parses to a truthy value, there is nothing to practise. */
  lemma NothingParsedNoQuestions(parse: Parser, items: seq<Json>)
    requires forall k :: 0 <= k < |items| ==>
      var q := Get(items[k], "question");
      !(Present(q) && parse(ToJsString(q.value)).Ok? && Truthy(parse(ToJsString(q.value)).value))
    ensures LoadQuestions(parse, Some(JArr(items))) == []
  {
    match ParseItems(parse, items)
    case None =>
    case Some(attempts) =>
      forall k | 0 <= k < |attempts| ensures !Kept(attempts[k]) {
        KeptIffParsed(parse, items[k]);
      }
      NoneKept(attempts);
  }

  lemma {:induction false} NoneKept(attempts: seq<Attempt>)
    requires forall k :: 0 <= k < |attempts| ==> !Kept(attempts[k])
    ensures KeptQuestions(attempts) == []
    decreases |attempts|
  {
    if |attempts| > 0 {
      NoneKept(attempts[..|attempts| - 1]);
    }
  }

  // The quiz.

  /** The page state. `selected` is `None` for an option whose selection is
      `undefined`. */
  datatype Quiz = Quiz(
    questions: seq<Question>,
    index: nat,
    selected: Option<Json>,
    showFeedback: bool,
    lives: int,
    loading: bool)

  const NoSelection: Option<Json> := Some(JStr(""))

  const Initial: Quiz := Quiz([], 0, NoSelection, false, 3, true)

  /** `handleAnswerSelect`: the selection is frozen once feedback shows. */
  function Select(q: Quiz, answer: Option<Json>): (r: Quiz)
    ensures q.showFeedback ==> r == q
    ensures !q.showFeedback ==> r.selected == answer && r == q.(selected := answer)
  {
    if q.showFeedback then q else q.(selected := answer)
  }

  /** Whether the selection is the current question's correct answer. */
  predicate IsCorrect(q: Quiz)
    requires q.index < |q.questions|
  {
    q.selected == Some(q.questions[q.index].correctAnswer)
  }

  /** `handleCheck`: shows the feedback and takes a life for a wrong answer.
      Nothing happens without a selection. */
  function Check(q: Quiz): (r: Quiz)
    requires q.index < |q.questions|
    ensures !Present(q.selected) ==> r == q
    ensures Present(q.selected) ==> r.showFeedback && r.index == q.index && r.selected == q.selected
    ensures Present(q.selected) ==> r.lives == (if IsCorrect(q) then q.lives else q.lives - 1)
  {
    if !Present(q.selected) then q
    else
      var lives := if q.selected != Some(q.questions[q.index].correctAnswer) then q.lives - 1 else q.lives;
      q.(showFeedback := true, lives := lives)
  }

  /** `handleNext`: on to the next question, or past the last one. */
  function Next(q: Quiz): (r: Quiz)
    ensures q.index + 1 < |q.questions| ==>
      r == q.(index := q.index + 1, selected := NoSelection, showFeedback := false)
    ensures q.index + 1 >= |q.questions| ==> r == q.(index := |q.questions|)
    ensures r.lives == q.lives
  {
    if q.index < |q.questions| - 1 then q.(index := q.index + 1, selected := NoSelection, showFeedback := false)
    else q.(index := |q.questions|)
  }

  /** `handleRetry`. */
  function Retry(q: Quiz): (r: Quiz)
    ensures r.lives == 3 && r.index == 0 && r.selected == NoSelection && !r.showFeedback
    ensures r.questions == q.questions && r.loading == q.loading
  {
    q.(lives := 3, index := 0, selected := NoSelection, showFeedback := false)
  }

  /** The screen the page renders, in the order its branches are tested. */
  datatype Screen =
    | Loading
    | GameOver(answered: nat)
    | Completed(total: nat, correct: int, percentage: int)
    | NoQuestions
    | Playing(index: nat)

  /** `Math.round(100 * correct / total)` on exact fractions; 0 without
      questions. */
  function Percentage(correct: int, total: nat): (p: int)
    ensures total == 0 ==> p == 0
  {
    if total > 0 then (200 * correct + total) / (2 * total) else 0
  }

  /** The percentage is the nearest whole percent, halves rounded up: it
      lies in [0, 100], is 100 for all correct and 0 for none. */
  lemma PercentageBounds(correct: int, total: nat)
    requires total > 0 && 0 <= correct <= total
    ensures var p := Percentage(correct, total);
      && 0 <= p <= 100
      && 2 * total * p <= 200 * correct + total < 2 * total * (p + 1)
      && (correct == total ==> p == 100)
      && (correct == 0 ==> p == 0)
  {
    var n, d := 200 * correct + total, 2 * total;
    var p := n / d;
    assert n == d * p + n % d && 0 <= n % d < d;
    assert 0 <= n < d * 101 by {
      assert 200 * correct <= 200 * total;
    }
    if p > 100 {
      MulMono(d, 101, p);
      assert false;
    }
    if p < 0 {
      assert d * p < 0 by { MulMono(d, p, -1); }
      assert false;
    }
    if correct == total {
      assert n == d * 100 + total;
      DivUnique(n, d, 100);
    }
    if correct == 0 {
      DivUnique(n, d, 0);
    }
  }

  lemma MulMono(d: nat, a: int, b: int)
    requires a <= b
    ensures d * a <= d * b
  {
  }

  lemma MulSucc(d: int, a: int)
    ensures d * (a + 1) == d * a + d
  {
  }

  /** Euclidean division is determined by its bounds. */
  lemma DivUnique(n: int, d: nat, q: int)
    requires d > 0 && d * q <= n < d * q + d
    ensures n / d == q
  {
    var q2 := n / d;
    assert d * q2 <= n < d * q2 + d;
    if q2 > q {
      MulSucc(d, q);
      MulMono(d, q + 1, q2);
    } else if q2 < q {
      MulSucc(d, q2);
      MulMono(d, q2 + 1, q);
    }
  }


  function Render(q: Quiz): (s: Screen)
    ensures q.loading <==> s == Loading
    ensures !q.loading && q.lives == 0 <==> s.GameOver?
    ensures s.Playing? ==> q.index < |q.questions|
  {
    if q.loading then Loading
    else if q.lives == 0 then GameOver(q.index)
    else if q.index >= |q.questions| then
      var total := |q.questions|;
      var correct := total - (3 - q.lives);
      Completed(total, correct, Percentage(correct, total))
    else if |q.questions| == 0 then NoQuestions
    else Playing(q.index)
  }

  /** What the user can do: the load finishes once, the option buttons are
      disabled while feedback shows, the check button needs a selection,
      the next button shows with the feedback, and retry is offered on the
      game-over and completion screens. */
  datatype Event = Loaded(questions: seq<Question>) | Choose(option: nat) | CheckAnswer | NextQuestion | RetryQuiz

  predicate Enabled(q: Quiz, e: Event) {
    match e
    case Loaded(_) => q.loading
    case Choose(k) => Render(q).Playing? && !q.showFeedback && k < |q.questions[q.index].options|
    case CheckAnswer => Render(q).Playing? && !q.showFeedback && Present(q.selected)
    case NextQuestion => Render(q).Playing? && q.showFeedback
    case RetryQuiz => Render(q).GameOver? || Render(q).Completed?
  }

  function Step(q: Quiz, e: Event): Quiz
    requires Enabled(q, e)
  {
    match e
    case Loaded(questions) => q.(questions := questions, loading := false)
    case Choose(k) => Select(q, q.questions[q.index].options[k])
    case CheckAnswer => Check(q)
    case NextQuestion => Next(q)
    case RetryQuiz => Retry(q)
  }

  /** The wrong answers so far, `3 - lives`, never exceed the questions
      answered: one check per question at most. */
  predicate Inv(q: Quiz) {
    && (q.loading ==> q.index == 0 && q.lives == 3 && !q.showFeedback)
    && q.index <= |q.questions|
    && 0 <= q.lives <= 3
    && 3 - q.lives <= q.index + (if q.showFeedback && q.index < |q.questions| then 1 else 0)
  }

  lemma InitialInv()
    ensures Inv(Initial) && Render(Initial) == Loading
  {
  }

  lemma StepInv(q: Quiz, e: Event)
    requires Inv(q) && Enabled(q, e)
    ensures Inv(Step(q, e))
  {
  }

  /** A run of enabled events. */
  predicate Run(q: Quiz, es: seq<Event>, r: Quiz)
    decreases |es|
  {
    if |es| == 0 then r == q
    else Enabled(q, es[0]) && Run(Step(q, es[0]), es[1..], r)
  }

  lemma {:induction false} RunInv(q: Quiz, es: seq<Event>, r: Quiz)
    requires Inv(q) && Run(q, es, r)
    ensures Inv(r)
    decreases |es|
  {
    if |es| > 0 {
      StepInv(q, es[0]);
      RunInv(Step(q, es[0]), es[1..], r);
    }
  }

  /** On every reachable state: lives stay in [0, 3], the completion screen
      counts between 0 and all questions correct, and the "no questions"
      screen never shows (with no questions the completion screen does). */
  lemma Reachable(es: seq<Event>, r: Quiz)
    requires Run(Initial, es, r)
    ensures 0 <= r.lives <= 3
    ensures Render(r).Completed? ==> 0 <= Render(r).correct <= Render(r).total && 0 <= Render(r).percentage <= 100
    ensures Render(r) != NoQuestions
    ensures !r.loading && |r.questions| == 0 && r.lives > 0 ==> Render(r) == Completed(0, 0, 0)
  {
    InitialInv();
    RunInv(Initial, es, r);
    var total := |r.questions|;
    if !r.loading && r.lives != 0 && r.index >= total && total > 0 {
      PercentageBounds(total - (3 - r.lives), total);
    }
  }

  /** Loading an empty list goes straight to the completion screen, which
      then shows "暂无题目" (no questions) instead of a score. */
  lemma EmptyLoadCompletes()
    ensures Render(Step(Initial, Loaded([]))) == Completed(0, 0, 0)
  {
  }

  /** A check takes exactly one life for a wrong answer and none for the
      correct one, and a second check on the same question is impossible. */
  lemma CheckOnce(q: Quiz)
    requires Inv(q) && Enabled(q, CheckAnswer)
    ensures var r := Step(q, CheckAnswer);
      && r.lives == (if IsCorrect(q) then q.lives else q.lives - 1)
      && r.lives >= 0
      && !Enabled(r, CheckAnswer)
      && (forall k :: !Enabled(r, Choose(k)))
  {
  }

  const CorrectText: string := "回答正确！"
  const WrongPrefix: string := "回答错误，正确答案是: "

  /** The avatar's mood while playing: thinking until the answer is
      checked, then happy or sad. */
  function Mood(q: Quiz): (m: string)
    requires q.index < |q.questions|
    ensures m in {"thinking", "happy", "sad"}
  {
    if !q.showFeedback then "thinking"
    else if IsCorrect(q) then "happy" else "sad"
  }

  /** The feedback line under a checked answer: the option's own feedback
      when it has a truthy one, otherwise a verdict naming the correct
      answer. `None` (nothing shown) before the check. */
  function FeedbackContent(q: Quiz): (r: Option<Json>)
    requires q.index < |q.questions|
    ensures r.Some? <==> q.showFeedback && Present(q.selected)
    ensures r.Some? ==> Truthy(r.value)
  {
    var question := q.questions[q.index];
    if !q.showFeedback || !Present(q.selected) then None
    else
      var key := PropertyKey(q.selected);
      if key in question.selectionFeedback && Truthy(question.selectionFeedback[key]) then
        Some(question.selectionFeedback[key])
      else if IsCorrect(q) then Some(JStr(CorrectText))
      else Some(JStr(WrongPrefix + ToJsString(question.correctAnswer)))
  }

  /** After a check the avatar is happy exactly when no life was lost. */
  lemma CheckMood(q: Quiz)
    requires Inv(q) && Enabled(q, CheckAnswer)
    ensures var r := Step(q, CheckAnswer);
      r.index < |r.questions| && (Mood(r) == "happy" <==> r.lives == q.lives)
  {
  }
}
