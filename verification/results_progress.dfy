/**
 * The simulated grading progress of the results page. Progress starts at
 * 30 and a timer adds 5 each second until it reaches 100; the page shows a
 * waiting message and an estimate of the seconds left while progress is
 * below 100, and enables the report button from 100 on. The timer itself
 * is modelled by counting its ticks.
 */
module ResultsProgress {
  import opened Wrappers

  const InitialProgress: int := 30

  /** One timer callback: 100 from 100 on, otherwise 5 more. */
  function Tick(prev: int): (r: int)
    ensures prev < 100 ==> r == prev + 5
    ensures prev >= 100 ==> r == 100
  {
    if prev >= 100 then 100 else prev + 5
  }

  /** The progress after `n` ticks. */
  function Ticks(n: nat): int {
    if n == 0 then InitialProgress else Tick(Ticks(n - 1))
  }

  function MinInt(a: int, b: int): int { if a <= b then a else b }

  /** Closed form: progress climbs by 5 from 30 and stays at 100 from the
      fourteenth tick on, so it is always a multiple of 5 in [30, 100]. */
  lemma {:induction false} TicksClosedForm(n: nat)
    ensures Ticks(n) == MinInt(100, 30 + 5 * n)
    ensures 30 <= Ticks(n) <= 100 && Ticks(n) % 5 == 0
  {
    if n > 0 {
      TicksClosedForm(n - 1);
    }
  }

  /** Progress never goes back, and it is complete after 14 ticks. */
  lemma TicksMonotone(m: nat, n: nat)
    requires m <= n
    ensures Ticks(m) <= Ticks(n)
    ensures n >= 14 ==> Ticks(n) == 100
    ensures n < 14 ==> Ticks(n) < 100
  {
    TicksClosedForm(m);
    TicksClosedForm(n);
  }

  /** `Math.max(0, Math.round((100 - progress) / 5))`, with `Math.round`
      rounding halves up: round(x / 5) is floor((2x + 5) / 10). */
  function RemainingSeconds(progress: int): (r: nat)
    ensures progress >= 100 ==> r == 0
  {
    var rounded := (2 * (100 - progress) + 5) / 10;
    if rounded > 0 then rounded else 0
  }

  /** On every progress the timer can reach, the estimate is exact: one
      second per tick still to come. */
  lemma RemainingIsTicksLeft(n: nat)
    ensures RemainingSeconds(Ticks(n)) == (100 - Ticks(n)) / 5
    ensures n <= 14 ==> RemainingSeconds(Ticks(n)) == 14 - n
    ensures RemainingSeconds(Ticks(n)) == 0 <==> Ticks(n) == 100
  {
    TicksClosedForm(n);
    var p := Ticks(n);
    var k := (100 - p) / 5;
    assert 100 - p == 5 * k;
    assert 2 * (100 - p) + 5 == 10 * k + 5;
  }

  /** What the progress card shows. */
  datatype View = View(waiting: bool, remaining: Option<nat>, reportEnabled: bool)

  function Render(progress: int): (r: View)
    ensures r.waiting <==> progress < 100
    ensures r.remaining.Some? <==> r.waiting
    ensures r.reportEnabled <==> !r.waiting
  {
    if progress < 100 then View(true, Some(RemainingSeconds(progress)), false)
    else View(false, None, !(progress < 100))
  }

  /** Along the timer, the waiting message and its estimate show for the
      first 14 ticks and the report opens exactly when the estimate would
      read 0. */
  lemma RenderAlongTimer(n: nat)
    ensures Render(Ticks(n)).reportEnabled <==> n >= 14
    ensures n < 14 ==> Render(Ticks(n)).remaining == Some(14 - n)
  {
    TicksClosedForm(n);
    RemainingIsTicksLeft(n);
  }
}
