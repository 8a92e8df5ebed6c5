/**
 * The progress and achievement cards. The progress card clamps
 * `value / max * 100` into [0, 100] and picks an avatar mood from it; the
 * achievement card shows a tick or a question mark unless given an icon.
 * Numbers are modelled as exact reals; `NaN` is `None`.
 */
module ZhangCard {
  import opened Wrappers
  import opened Json

  /** `max = 100`: the default of an omitted `max`. */
  const DefaultMax: real := 100.0

  function Min(a: real, b: real): real { if a <= b then a else b }
  function Max(a: real, b: real): real { if a >= b then a else b }

  /** `Math.min(100, Math.max(0, (value / max) * 100))`. Dividing by a zero
      `max` gives an infinity of the value's sign, which the clamp turns
      into 100 or 0, or `NaN` for a zero (or missing) value; `NaN` passes
      through both `Math.min` and `Math.max`. */
  function Percentage(value: Option<real>, max: Option<real>): (r: Option<real>)
    ensures r.Some? ==> 0.0 <= r.value <= 100.0
    ensures r.None? <==> value.None? || (value.value == 0.0 && max == Some(0.0))
  {
    var m := max.GetOr(DefaultMax);
    if value.None? then None
    else if m == 0.0 then
      if value.value > 0.0 then Some(100.0)
      else if value.value < 0.0 then Some(0.0)
      else None
    else Some(Min(100.0, Max(0.0, value.value / m * 100.0)))
  }

  /** With a positive `max`, the bar fills in proportion and is full from
      `value >= max` on and empty from `value <= 0` down. */
  lemma PercentageProportional(value: real, max: real)
    requires max > 0.0
    ensures 0.0 <= value <= max ==> Percentage(Some(value), Some(max)) == Some(value / max * 100.0)
    ensures value >= max ==> Percentage(Some(value), Some(max)) == Some(100.0)
    ensures value <= 0.0 ==> Percentage(Some(value), Some(max)) == Some(0.0)
  {
    if value >= max {
      QuotientAtLeastOne(value, max);
    }
    if 0.0 <= value <= max {
      QuotientAtMostOne(value, max);
    }
    if value <= 0.0 {
      QuotientNotPositive(value, max);
    }
  }

  lemma QuotientAtLeastOne(a: real, b: real)
    requires b > 0.0 && a >= b
    ensures a / b >= 1.0
  {
    var q := a / b;
    assert q * b == a;
    assert (q - 1.0) * b >= 0.0;
  }

  lemma QuotientAtMostOne(a: real, b: real)
    requires b > 0.0 && a <= b
    ensures a / b <= 1.0
  {
    var q := a / b;
    assert q * b == a;
    assert (1.0 - q) * b >= 0.0;
  }

  lemma QuotientNotPositive(a: real, b: real)
    requires b > 0.0 && a <= 0.0
    ensures a / b <= 0.0
  {
    var q := a / b;
    assert q * b == a;
  }

  /** A larger value never gives a smaller percentage, for a positive max. */
  lemma PercentageMonotone(a: real, b: real, max: real)
    requires max > 0.0 && a <= b
    ensures Percentage(Some(a), Some(max)).value <= Percentage(Some(b), Some(max)).value
  {
    assert a / max <= b / max;
  }

  /** `getMood()`: thresholds 80, 40 and 20; `NaN` fails every comparison
      and gives 'sad'. */
  function ProgressMood(percentage: Option<real>): (r: string)
    ensures percentage.None? ==> r == "sad"
  {
    if percentage.Some? && percentage.value >= 80.0 then "happy"
    else if percentage.Some? && percentage.value >= 40.0 then "default"
    else if percentage.Some? && percentage.value >= 20.0 then "thinking"
    else "sad"
  }

  function MoodRank(mood: string): nat {
    if mood == "happy" then 3 else if mood == "default" then 2 else if mood == "thinking" then 1 else 0
  }

  /** The four moods split a known percentage at 80, 40 and 20, each band
      closed below. */
  lemma ProgressMoodThresholds(p: real)
    ensures ProgressMood(Some(p)) == "happy" <==> p >= 80.0
    ensures ProgressMood(Some(p)) == "default" <==> 40.0 <= p < 80.0
    ensures ProgressMood(Some(p)) == "thinking" <==> 20.0 <= p < 40.0
    ensures ProgressMood(Some(p)) == "sad" <==> p < 20.0
  {
  }

  /** More progress never gives a gloomier avatar. */
  lemma ProgressMoodMonotone(p: real, q: real)
    requires p <= q
    ensures MoodRank(ProgressMood(Some(p))) <= MoodRank(ProgressMood(Some(q)))
  {
  }

  /** `mood = 'default'` followed by `mood || getMood()`, as written: an
      omitted mood takes the default 'default', which is truthy, so the
      progress never decides the mood unless a falsy mood is passed
      explicitly. */
  function CurrentMoodAsWritten(mood: Option<Json>, percentage: Option<real>): (r: Json)
    ensures mood.None? ==> r == JStr("default")
    ensures Present(mood) ==> r == mood.value
  {
    var m := mood.GetOr(JStr("default"));
    if Truthy(m) then m else JStr(ProgressMood(percentage))
  }

  /** A full bar without a mood argument still shows the neutral avatar. */
  lemma FullBarIsNotHappy()
    ensures Percentage(Some(100.0), None) == Some(100.0)
    ensures CurrentMoodAsWritten(None, Percentage(Some(100.0), None)) == JStr("default")
    ensures ProgressMood(Percentage(Some(100.0), None)) == "happy"
  {
  }

  /** The evidently intended rule: the progress decides the mood unless a
      mood is given. */
  function CurrentMood(mood: Option<Json>, percentage: Option<real>): (r: Json)
    ensures Present(mood) ==> r == mood.value
    ensures !Present(mood) ==> r == JStr(ProgressMood(percentage))
  {
    if Present(mood) then mood.value else JStr(ProgressMood(percentage))
  }

  /** Under the intended rule a card without a mood follows its progress,
      and the two rules agree whenever a mood is passed. */
  lemma CurrentMoodFollowsProgress(value: Option<real>, max: Option<real>, mood: Option<Json>)
    ensures CurrentMood(None, Percentage(value, max)) == JStr(ProgressMood(Percentage(value, max)))
    ensures mood.Some? ==> CurrentMood(mood, Percentage(value, max)) == CurrentMoodAsWritten(mood, Percentage(value, max))
  {
  }

  /** `icon || (complete ? '✓' : '?')`, with `complete = false` for an
      omitted flag. */
  function AchievementIcon(icon: Option<Json>, complete: Option<bool>): (r: Json)
    ensures Present(icon) ==> r == icon.value
    ensures !Present(icon) ==> (r == JStr("✓") <==> complete == Some(true))
    ensures !Present(icon) ==> (r == JStr("?") <==> complete != Some(true))
  {
    if Present(icon) then icon.value
    else if complete.GetOr(false) then JStr("✓") else JStr("?")
  }

  /** "已完成" is shown exactly for a complete achievement, which is also
      when the default icon is a tick. */
  predicate DoneShown(complete: Option<bool>) {
    complete.GetOr(false)
  }

  lemma DoneMatchesTick(complete: Option<bool>)
    ensures DoneShown(complete) <==> AchievementIcon(None, complete) == JStr("✓")
  {
  }
}
