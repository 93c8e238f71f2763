/** The arithmetic of the progress bar: the rounded progress percentage, the
    linear pace target for today and the ahead/behind verdict. Everything is
    exact integer arithmetic standing in for the program's floating point. */
module Pacing {
  import opened Wrappers
  import opened Calendar

  /** `Math.round(a / b)` for a positive divisor. */
  function RoundDiv(a: int, b: int): int
    requires b > 0
  {
    (2 * a + b) / (2 * b)
  }

  /** `RoundDiv` is the integer nearest to `a / b`, halves rounded up. */
  lemma RoundDivNearest(a: int, b: int)
    requires b > 0
    ensures 2 * b * RoundDiv(a, b) - b <= 2 * a < 2 * b * RoundDiv(a, b) + b
  {
  }

  /** `Math.round(a / b)` for any non-zero divisor. */
  function RoundRatio(a: int, b: int): int
    requires b != 0
  {
    if b > 0 then RoundDiv(a, b) else RoundDiv(-a, -b)
  }

  /** `RoundRatio` is the integer nearest to `a / b`, halves rounded up:
      `r - 1/2 <= a / b < r + 1/2`, written without division. */
  lemma RoundRatioNearest(a: int, b: int)
    requires b != 0
    ensures b > 0 ==> 2 * b * RoundRatio(a, b) - b <= 2 * a < 2 * b * RoundRatio(a, b) + b
    ensures b < 0 ==> 2 * b * RoundRatio(a, b) + b < 2 * a <= 2 * b * RoundRatio(a, b) - b
  {
  }

  /** A positive number taken at least once is at least itself. */
  lemma ScaleAtLeastOnce(b: int, t: int)
    requires b > 0 && t >= 1
    ensures b * t >= b
  {
  }

  /** Rounding is monotone in the numerator. */
  lemma RoundDivMonotone(a1: int, a2: int, b: int)
    requires b > 0 && a1 <= a2
    ensures RoundDiv(a1, b) <= RoundDiv(a2, b)
  {
    var r1, r2 := RoundDiv(a1, b), RoundDiv(a2, b);
    RoundDivNearest(a1, b);
    RoundDivNearest(a2, b);
    if r1 > r2 {
      ScaleAtLeastOnce(2 * b, r1 - r2);
    }
  }

  /** An exact multiple rounds to itself. */
  lemma RoundDivExact(k: int, b: int)
    requires b > 0
    ensures RoundDiv(k * b, b) == k
  {
    var r := RoundDiv(k * b, b);
    RoundDivNearest(k * b, b);
    assert 2 * (k * b) == 2 * b * k;
    if r < k {
      ScaleAtLeastOnce(2 * b, k - r);
    } else if r > k {
      ScaleAtLeastOnce(2 * b, r - k);
    }
  }

  /** The progress percentage `Math.round(current / goal * 100)`; a zero goal
      makes the quotient non-finite, which is `None`. */
  function ProgressPercent(current: int, goal: int): (p: Option<int>)
    ensures p.None? <==> goal == 0
  {
    if goal == 0 then None else Some(RoundRatio(100 * current, goal))
  }

  /** Between nothing read and the goal reached, the percentage runs from 0 to
      100: it is 0 with nothing read and 100 at the goal. */
  lemma ProgressPercentRange(current: int, goal: int)
    requires goal > 0 && 0 <= current <= goal
    ensures ProgressPercent(current, goal).Some?
    ensures 0 <= ProgressPercent(current, goal).value <= 100
    ensures current == goal ==> ProgressPercent(current, goal).value == 100
    ensures current == 0 ==> ProgressPercent(current, goal).value == 0
  {
    RoundDivMonotone(0, 100 * current, goal);
    RoundDivMonotone(100 * current, 100 * goal, goal);
    RoundDivExact(0, goal);
    RoundDivExact(100, goal);
  }

  /** More articles read never lowers the percentage. */
  lemma ProgressPercentMonotone(c1: int, c2: int, goal: int)
    requires goal > 0 && c1 <= c2
    ensures ProgressPercent(c1, goal).value <= ProgressPercent(c2, goal).value
  {
    RoundDivMonotone(100 * c1, 100 * c2, goal);
  }

  /** The pace target `Math.round(goal / daysInYear * dayOfYear)`, taken on the
      exact share `goal * dayOfYear / daysInYear`. */
  function Expected(goal: int, dayOfYear: int, daysInYear: int): int
    requires daysInYear > 0
  {
    RoundDiv(goal * dayOfYear, daysInYear)
  }

  /** During the year the target stays between 0 and the goal. */
  lemma ExpectedWithinGoal(goal: int, dayOfYear: int, daysInYear: int)
    requires goal >= 0 && 1 <= dayOfYear <= daysInYear
    ensures 0 <= Expected(goal, dayOfYear, daysInYear) <= goal
  {
    assert 0 <= goal * dayOfYear <= goal * daysInYear;
    RoundDivMonotone(0, goal * dayOfYear, daysInYear);
    RoundDivMonotone(goal * dayOfYear, goal * daysInYear, daysInYear);
    RoundDivExact(0, daysInYear);
    RoundDivExact(goal, daysInYear);
  }

  /** The target never decreases as the year goes on. */
  lemma ExpectedMonotone(goal: int, day1: int, day2: int, daysInYear: int)
    requires goal >= 0 && day1 <= day2 && daysInYear > 0
    ensures Expected(goal, day1, daysInYear) <= Expected(goal, day2, daysInYear)
  {
    assert goal * day1 <= goal * day2;
    RoundDivMonotone(goal * day1, goal * day2, daysInYear);
  }

  /** On the last day of the year the target is the whole goal. */
  lemma ExpectedOnLastDay(goal: int, daysInYear: int)
    requires daysInYear > 0
    ensures Expected(goal, daysInYear, daysInYear) == goal
  {
    RoundDivExact(goal, daysInYear);
  }

  /** A goal of 365 on day 100 of a 366-day year asks for 100 articles. */
  lemma ExpectedExample()
    ensures Expected(365, 100, 366) == 100
  {
  }

  /** `articlesUntilToday` for the date `today`. */
  function ArticlesUntilToday(goal: int, today: Date): (e: int)
    requires ValidDate(today)
    ensures goal >= 0 ==> 0 <= e <= goal
  {
    var e := Expected(goal, DayOfYear(today), DaysInYear(today.year));
    assert goal >= 0 ==> 0 <= e <= goal by {
      if goal >= 0 { ExpectedWithinGoal(goal, DayOfYear(today), DaysInYear(today.year)); }
    }
    e
  }

  /** Later dates of a year never ask for fewer articles, and December 31
      asks for the whole goal. */
  lemma ArticlesUntilTodayOverTheYear(goal: int, d1: Date, d2: Date)
    requires goal >= 0 && ValidDate(d1) && ValidDate(d2) && EarlierInYear(d1, d2)
    ensures ArticlesUntilToday(goal, d1) <= ArticlesUntilToday(goal, d2)
    ensures ArticlesUntilToday(goal, Date(d1.year, 12, 31)) == goal
  {
    DayOfYearIncreases(d1, d2);
    ExpectedMonotone(goal, DayOfYear(d1), DayOfYear(d2), DaysInYear(d1.year));
    YearEnds(d1.year);
    ExpectedOnLastDay(goal, DaysInYear(d1.year));
  }

  /** What the progress bar shows about the schedule: the bar colour, the red
      pace overlay, which message is shown and the number in it. */
  datatype Verdict = Verdict(greenBar: bool, paceOverlay: bool, ahead: bool, shown: int)

  /** The three comparisons of the progress bar. */
  function Judge(current: int, expected: int): (v: Verdict)
    ensures v.greenBar <==> current >= expected
    ensures v.greenBar != v.paceOverlay
    ensures v.ahead ==> v.greenBar && v.shown > 0
    ensures v.paceOverlay <==> !v.ahead && v.shown > 0
    ensures v.shown == if current >= expected then current - expected else expected - current
  {
    var ahead := current > expected;
    Verdict(current >= expected, current < expected, ahead,
            if ahead then current - expected else expected - current)
  }

  /** Being exactly on schedule gives a green bar with the "behind" message
      showing 0, not a separate on-track state. */
  lemma OnScheduleShowsZeroBehind(n: int)
    ensures Judge(n, n) == Verdict(true, false, false, 0)
  {
  }

  /** With a target of 100, 120 read is 20 ahead and 80 read is 20 behind. */
  lemma JudgeExamples()
    ensures Judge(120, 100) == Verdict(true, false, true, 20)
    ensures Judge(80, 100) == Verdict(false, true, false, 20)
  {
  }

  /** Everything the progress bar computes for a goal, a count and today. */
  datatype View = View(percent: Option<int>, expected: int, verdict: Verdict)

  /** The numbers of `ProgressBar` for a given day. */
  function ProgressBar(goal: int, current: int, today: Date): (v: View)
    requires ValidDate(today)
    ensures goal >= 0 ==> 0 <= v.expected <= goal
    ensures v.verdict.greenBar <==> current >= v.expected
    ensures v.percent.None? <==> goal == 0
  {
    var expected := ArticlesUntilToday(goal, today);
    View(ProgressPercent(current, goal), expected, Judge(current, expected))
  }

  /** On December 31 the bar is green exactly when the goal is reached. */
  lemma LastDayGreenIffGoalReached(goal: int, current: int, y: int)
    requires goal >= 0
    ensures ProgressBar(goal, current, Date(y, 12, 31)).verdict.greenBar <==> current >= goal
  {
  }
}
