/**
 * The projection engine: the slope of the recent trend, the status ladder
 * and the confidence window of the projected date.
 *
 * `createProjection` indexes `recent21[0]` without a guard, which throws
 * when the window is empty; that outcome is `None` here.
 */
module Projection {
  import opened Wrappers
  import opened Models
  import opened Numeric
  import opened Calendar
  import opened Dates
  import opened Trend
  import opened Regression
  import opened Lists

  // ---------------------------------------------------------------------
  // recentWindow
  // ---------------------------------------------------------------------

  /** `daysBetween(p.entry.date, latest) <= days`; a NaN distance compares false. */
  predicate InWindow(p: TrendPoint, latest: string, days: int)
  {
    var d := DaysBetween(p.entry.date, latest);
    d.Some? && d.value <= days
  }

  /** `recentWindow(trend, days)`. */
  function RecentWindow(trend: seq<TrendPoint>, days: int): (w: seq<TrendPoint>)
    ensures |w| <= |trend|
    ensures forall p :: p in w ==> p in trend && InWindow(p, trend[|trend| - 1].entry.date, days)
  {
    if trend == [] then []
    else
      var latest := trend[|trend| - 1].entry.date;
      Filter(trend, p => InWindow(p, latest, days))
  }

  /**
   * The window keeps exactly the points within `days` of the last point's
   * date, in their order.
   */
  lemma {:induction false} RecentWindowMembers(trend: seq<TrendPoint>, days: int, p: TrendPoint)
    ensures trend == [] ==> RecentWindow(trend, days) == []
    ensures trend != [] ==>
      (p in RecentWindow(trend, days) <==> p in trend && InWindow(p, trend[|trend| - 1].entry.date, days))
  {
    if trend != [] {
      var latest := trend[|trend| - 1].entry.date;
      FilterMembers(trend, q => InWindow(q, latest, days), p);
    }
  }

  /**
   * When the last date reads as a date and `days` is not negative, the
   * window ends with the last point; when it does not, the window is empty.
   */
  lemma {:induction false} RecentWindowLast(trend: seq<TrendPoint>, days: int)
    requires trend != []
    ensures ParseISODateLocal(trend[|trend| - 1].entry.date).Some? && days >= 0 ==>
      RecentWindow(trend, days) != [] && RecentWindow(trend, days)[|RecentWindow(trend, days)| - 1] == trend[|trend| - 1]
    ensures ParseISODateLocal(trend[|trend| - 1].entry.date).None? ==> RecentWindow(trend, days) == []
  {
    var last := trend[|trend| - 1];
    var latest := last.entry.date;
    var keep := q => InWindow(q, latest, days);
    var init := trend[..|trend| - 1];
    assert trend == init + [last];
    FilterAppend(init, [last], keep);
    FilterOne(last, keep);
    DaysBetweenSelf(latest);
    if ParseISODateLocal(latest).None? {
      FilterNone(trend, keep);
    }
  }

  // ---------------------------------------------------------------------
  // slopeFrom
  // ---------------------------------------------------------------------

  /** Every point has a day offset (none is NaN). */
  predicate OffsetsKnown(points: seq<TrendPoint>)
  {
    forall i :: 0 <= i < |points| ==> points[i].dayOffset.Some?
  }

  /** `{ x: p.dayOffset - x0, y: p.trendWeight, w: p.reliability }` for each point. */
  function Samples(points: seq<TrendPoint>, x0: int): (s: seq<Sample>)
    requires OffsetsKnown(points)
    ensures |s| == |points|
  {
    seq(|points|, i requires 0 <= i < |points| => Sample((points[i].dayOffset.value - x0) as real, points[i].trendWeight, points[i].reliability))
  }

  /**
   * `slopeFrom(points)`: no slope for fewer than two points; otherwise the
   * slope of the fit with the day offsets re-zeroed at the first point. A
   * NaN offset makes the spread NaN, which the fit treats as zero.
   */
  function SlopeFrom(points: seq<TrendPoint>): (r: Option<real>)
    ensures r.Some? ==> |points| >= 2 && OffsetsKnown(points)
  {
    if |points| < 2 || !OffsetsKnown(points) then None
    else
      var fit := WeightedLinearRegression(Samples(points, points[0].dayOffset.value));
      if fit.None? then None else Some(fit.value.slope)
  }

  /** The trend weights lie on a line of slope `b` over the day offsets. */
  predicate TrendOnLine(points: seq<TrendPoint>, a: real, b: real)
    requires OffsetsKnown(points)
  {
    forall i :: 0 <= i < |points| ==> points[i].trendWeight == a + b * points[i].dayOffset.value as real
  }

  lemma {:induction false} SamplesOnLine(points: seq<TrendPoint>, x0: int, a: real, b: real)
    requires OffsetsKnown(points) && TrendOnLine(points, a, b)
    ensures OnLine(Samples(points, x0), a + b * x0 as real, b)
  {
    var s := Samples(points, x0);
    forall i | 0 <= i < |s|
      ensures s[i].y == (a + b * x0 as real) + b * s[i].x
    {
      ReZero(points[i].trendWeight, points[i].dayOffset.value as real, x0 as real, a, b);
    }
  }

  lemma {:induction false} ReZero(y: real, x: real, x0: real, a: real, b: real)
    requires y == a + b * x
    ensures y == (a + b * x0) + b * (x - x0)
  {
  }

  /**
   * There is no slope for fewer than two points or a missing offset. When
   * the trend weights lie on a line over the day offsets, the reliabilities
   * are positive and two offsets differ, the slope is that of the line.
   */
  lemma {:induction false} SlopeFromLine(points: seq<TrendPoint>, a: real, b: real, i: nat, j: nat)
    ensures |points| < 2 || !OffsetsKnown(points) ==> SlopeFrom(points).None?
    ensures OffsetsKnown(points) && TrendOnLine(points, a, b)
         && (forall k :: 0 <= k < |points| ==> points[k].reliability > 0.0)
         && i < |points| && j < |points| && points[i].dayOffset != points[j].dayOffset
         ==> SlopeFrom(points) == Some(b)
  {
    if OffsetsKnown(points) && TrendOnLine(points, a, b)
       && (forall k :: 0 <= k < |points| ==> points[k].reliability > 0.0)
       && i < |points| && j < |points| && points[i].dayOffset != points[j].dayOffset
    {
      var x0 := points[0].dayOffset.value;
      var s := Samples(points, x0);
      assert PositiveWeights(s);
      assert s[i].x != s[j].x;
      RegressionDefined(s, i, j);
      SamplesOnLine(points, x0, a, b);
      RegressionExactLine(s, a + b * x0 as real, b);
    }
  }

  // ---------------------------------------------------------------------
  // The confidence window
  // ---------------------------------------------------------------------

  /** `[slope14, slope].filter(s => s != null && s < -0.01)`. */
  function Qualifying(slope14: Option<real>, slope: real): (v: seq<real>)
    ensures forall x :: x in v <==> (x == slope && slope < -0.01) || (slope14 == Some(x) && x < -0.01)
    ensures |v| <= 2
  {
    (if slope14.Some? && slope14.value < -0.01 then [slope14.value] else [])
    + (if slope < -0.01 then [slope] else [])
  }

  /** `Math.min(...s)` for a non-empty `s`. */
  function SeqMin(s: seq<real>): (m: real)
    requires s != []
    ensures m in s && forall x :: x in s ==> m <= x
  {
    if |s| == 1 then s[0]
    else
      assert forall x :: x in s ==> x == s[0] || x in s[1..];
      Min(s[0], SeqMin(s[1..]))
  }

  /** `Math.max(...s)` for a non-empty `s`. */
  function SeqMax(s: seq<real>): (m: real)
    requires s != []
    ensures m in s && forall x :: x in s ==> x <= m
  {
    if |s| == 1 then s[0]
    else
      assert forall x :: x in s ==> x == s[0] || x in s[1..];
      Max(s[0], SeqMax(s[1..]))
  }

  /** `Math.round(remainingKg / Math.abs(slope))`: the days a falling slope takes to lose `remainingKg`. */
  function DaysAtSlope(remainingKg: real, slope: real): (n: int)
    requires slope < 0.0
    ensures remainingKg >= 0.0 ==> n >= 0
  {
    assert remainingKg >= 0.0 ==> remainingKg / Abs(slope) >= 0.0;
    JsRound(remainingKg / Abs(slope))
  }

  /** The steeper of two falling slopes reaches the target no later. */
  lemma {:induction false} DaysAtSlopeMonotone(remainingKg: real, s1: real, s2: real)
    requires remainingKg >= 0.0 && s1 <= s2 < 0.0
    ensures DaysAtSlope(remainingKg, s1) <= DaysAtSlope(remainingKg, s2)
  {
    DivideByLarger(remainingKg, Abs(s1), Abs(s2));
    JsRoundMonotone(remainingKg / Abs(s1), remainingKg / Abs(s2));
  }

  /** A farther target at the same slope takes no fewer days. */
  lemma {:induction false} DaysAtSlopeFarther(r1: real, r2: real, slope: real)
    requires r1 <= r2 && slope < 0.0
    ensures DaysAtSlope(r1, slope) <= DaysAtSlope(r2, slope)
  {
    DivideSame(r1, r2, Abs(slope));
    JsRoundMonotone(r1 / Abs(slope), r2 / Abs(slope));
  }

  lemma {:induction false} DivideByLarger(r: real, a: real, b: real)
    requires r >= 0.0 && a >= b > 0.0
    ensures r / a <= r / b
  {
    assert r / a * a == r == r / b * b;
  }

  lemma {:induction false} DivideSame(r1: real, r2: real, a: real)
    requires r1 <= r2 && a > 0.0
    ensures r1 / a <= r2 / a
  {
  }

  /** The days from today to the earlier date: at the steepest qualifying slope. */
  function EarlierDays(remainingKg: real, valid: seq<real>): int
    requires valid != [] && forall x :: x in valid ==> x < 0.0
  {
    DaysAtSlope(remainingKg, SeqMin(valid))
  }

  /** The days from today to the later date: at the shallowest qualifying slope. */
  function LaterDays(remainingKg: real, valid: seq<real>): int
    requires valid != [] && forall x :: x in valid ==> x < 0.0
  {
    DaysAtSlope(remainingKg, SeqMax(valid))
  }

  /** The days at any qualifying slope lie between the earlier and the later days. */
  lemma {:induction false} WindowDaysOrder(remainingKg: real, valid: seq<real>, slope: real)
    requires forall x :: x in valid ==> x < 0.0
    requires remainingKg >= 0.0 && slope in valid
    ensures 0 <= EarlierDays(remainingKg, valid) <= DaysAtSlope(remainingKg, slope) <= LaterDays(remainingKg, valid)
  {
    DaysAtSlopeMonotone(remainingKg, SeqMin(valid), slope);
    DaysAtSlopeMonotone(remainingKg, slope, SeqMax(valid));
  }

  /** The window of dates around `projectedDate`, or none when no slope qualifies. */
  function Window(remainingKg: real, today: string, projectedDate: string, valid: seq<real>): Option<ConfidenceWindow>
    requires forall x :: x in valid ==> x < 0.0
  {
    if valid == [] then None
    else Some(ConfidenceWindow(
      projectedDate,
      AddDays(today, EarlierDays(remainingKg, valid)),
      AddDays(today, LaterDays(remainingKg, valid))))
  }

  // ---------------------------------------------------------------------
  // createProjection
  // ---------------------------------------------------------------------

  /** The fewest points a projection needs. */
  const MinPoints: nat := 10
  /** The shortest span of the 21-day window, in days. */
  const MinSpanDays: int := 7
  /** A daily slope must fall below this to count as a downward trend. */
  const DownwardSlope: real := -0.01

  /** `daysBetween(recent21[0].entry.date, recent21[recent21.length - 1].entry.date)`. */
  function SpanDays(recent: seq<TrendPoint>): Option<int>
    requires recent != []
  {
    DaysBetween(recent[0].entry.date, recent[|recent| - 1].entry.date)
  }

  /** `trend.length < 10 || spanDays < 7`; a NaN span compares false. */
  predicate TooLittleData(trend: seq<TrendPoint>, recent: seq<TrendPoint>)
    requires recent != []
  {
    |trend| < MinPoints || (SpanDays(recent).Some? && SpanDays(recent).value < MinSpanDays)
  }

  /** `Number((slope * 7).toFixed(3))` and the slope itself. */
  function RateOf(slope: real): (r: Rate)
    ensures r.slopeKgPerDay == slope
    ensures -0.0005 <= r.weeklyRateKg - 7.0 * slope <= 0.0005
  {
    Rate(Round3(slope * 7.0), slope)
  }

  /**
   * The ladder of `createProjection` once the series has a last point and
   * the 21-day window is not empty, over what it measures: the latest trend
   * weight, whether there is too little data, the 21-day and 14-day slopes,
   * the target and the text of today's date. The 14-day slope is only
   * looked at on the last rung.
   */
  function Ladder(latest: real, tooLittle: bool, slope: Option<real>, slope14: Option<real>,
                  target: Option<real>, today: string): (r: ProjectionResult)
    ensures !r.NotEnoughData? ==> slope.Some? && r.rate.slopeKgPerDay == slope.value && r.currentTrendWeight == latest
    ensures r.Projected? ==> r.daysToTarget >= 0 && r.confidenceWindow.Some?
  {
    if tooLittle || slope.None? then NotEnoughData(Some(latest))
    else
      var rate := RateOf(slope.value);
      if target.None? then NoTarget(rate, latest)
      else
        var remainingKg := latest - target.value;
        if remainingKg <= 0.0 then TargetReached(rate, latest, today, 0)
        else if slope.value >= DownwardSlope then NoDownwardTrend(rate, latest)
        else
          var daysToTarget := DaysAtSlope(remainingKg, slope.value);
          var projectedDate := AddDays(today, daysToTarget);
          var valid := Qualifying(slope14, slope.value);
          Projected(rate, latest, projectedDate, daysToTarget, Window(remainingKg, today, projectedDate, valid))
  }

  /**
   * `createProjection` after the series is built, for the trend, the target
   * and the text of today's date: not-enough-data without a trend weight
   * for an empty series, `None` where the source throws (an empty 21-day
   * window), and otherwise the ladder.
   */
  function ProjectFromTrend(trend: seq<TrendPoint>, target: Option<real>, today: string): (r: Option<ProjectionResult>)
    ensures trend == [] ==> r == Some(NotEnoughData(None))
    ensures r.Some? && !r.value.NotEnoughData? ==> |trend| >= MinPoints
  {
    if trend == [] then Some(NotEnoughData(None))
    else
      var recent21 := RecentWindow(trend, 21);
      if recent21 == [] then None
      else Some(Ladder(trend[|trend| - 1].trendWeight, TooLittleData(trend, recent21), SlopeFrom(recent21),
                       SlopeFrom(RecentWindow(trend, 14)), target, today))
  }

  /** `createProjection(entries, targetWeightKg)` on the local day `now`. */
  function CreateProjection(entries: seq<Entry>, target: Option<real>, now: int): (r: Option<ProjectionResult>)
    ensures entries == [] ==> r == Some(NotEnoughData(None))
    ensures r.Some? && !r.value.NotEnoughData? ==> |entries| >= MinPoints
  {
    ProjectFromTrend(TrendSeries(entries, DefaultAlphaBase), target, ToLocalISODate(now))
  }

  /**
   * The rungs of the ladder, first match wins: too little data or no slope
   * give not-enough-data with the latest trend weight; then no target, a
   * target already reached, a slope not below -0.01, and otherwise a
   * projection.
   */
  lemma {:induction false} LadderStatus(latest: real, tooLittle: bool, slope: Option<real>, slope14: Option<real>,
                                        target: Option<real>, today: string)
    ensures var r := Ladder(latest, tooLittle, slope, slope14, target, today);
      && (r.NotEnoughData? <==> tooLittle || slope.None?)
      && (r.NotEnoughData? ==> r.latestTrendWeight == Some(latest))
      && (r.NoTarget? <==> !tooLittle && slope.Some? && target.None?)
      && (r.TargetReached? <==> !tooLittle && slope.Some? && target.Some? && latest <= target.value)
      && (r.NoDownwardTrend? <==> !tooLittle && slope.Some? && target.Some? && latest > target.value
                                  && slope.value >= DownwardSlope)
      && (r.Projected? <==> !tooLittle && slope.Some? && target.Some? && latest > target.value
                            && slope.value < DownwardSlope)
  {
  }

  /**
   * Wherever there is a slope, the result carries it per day and, rounded
   * to three decimals, per week, together with the latest trend weight.
   */
  lemma {:induction false} LadderRate(latest: real, tooLittle: bool, slope: Option<real>, slope14: Option<real>,
                                      target: Option<real>, today: string)
    requires !Ladder(latest, tooLittle, slope, slope14, target, today).NotEnoughData?
    ensures var r := Ladder(latest, tooLittle, slope, slope14, target, today);
      && slope.Some?
      && r.rate.slopeKgPerDay == slope.value
      && r.rate.weeklyRateKg == Round3(7.0 * slope.value)
      && r.currentTrendWeight == latest
  {
    assert slope.value * 7.0 == 7.0 * slope.value;
  }

  /**
   * A reached target is dated today, zero days away. A projection is the
   * rounded number of days the slope takes to cover the remaining weight,
   * never negative, and is dated that many days after today.
   */
  lemma {:induction false} LadderDates(latest: real, tooLittle: bool, slope: Option<real>, slope14: Option<real>,
                                       target: Option<real>, today: string)
    ensures var r := Ladder(latest, tooLittle, slope, slope14, target, today);
      && (r.TargetReached? ==> r.projectedDate == today && r.daysToTarget == 0)
      && (r.Projected? ==>
        && target.Some? && slope.Some? && slope.value < DownwardSlope
        && r.daysToTarget == DaysAtSlope(latest - target.value, slope.value)
        && r.daysToTarget >= 0
        && r.projectedDate == AddDays(today, r.daysToTarget))
  {
  }

  /**
   * A projection always has a confidence window. Its likely date is the
   * projected one, and its earlier and later dates come from the steepest
   * and the shallowest qualifying slope, so they lie at most and at least
   * as many days after today as the projection.
   */
  lemma {:induction false} LadderWindow(latest: real, tooLittle: bool, slope: Option<real>, slope14: Option<real>,
                                        target: Option<real>, today: string)
    requires Ladder(latest, tooLittle, slope, slope14, target, today).Projected?
    ensures var r := Ladder(latest, tooLittle, slope, slope14, target, today);
      var remainingKg, valid := latest - target.value, Qualifying(slope14, slope.value);
      && valid != []
      && 0 <= EarlierDays(remainingKg, valid) <= r.daysToTarget <= LaterDays(remainingKg, valid)
      && r.confidenceWindow == Some(ConfidenceWindow(r.projectedDate,
                                                     AddDays(today, EarlierDays(remainingKg, valid)),
                                                     AddDays(today, LaterDays(remainingKg, valid))))
  {
    WindowDaysOrder(latest - target.value, Qualifying(slope14, slope.value), slope.value);
  }

  /** With the same measurements, a lower target is projected no sooner. */
  lemma {:induction false} LadderFartherTarget(latest: real, tooLittle: bool, slope: Option<real>, slope14: Option<real>,
                                               t1: real, t2: real, today: string)
    requires t1 <= t2
    requires Ladder(latest, tooLittle, slope, slope14, Some(t1), today).Projected?
    requires Ladder(latest, tooLittle, slope, slope14, Some(t2), today).Projected?
    ensures Ladder(latest, tooLittle, slope, slope14, Some(t2), today).daysToTarget
         <= Ladder(latest, tooLittle, slope, slope14, Some(t1), today).daysToTarget
  {
    DaysAtSlopeFarther(latest - t2, latest - t1, slope.value);
  }

  /**
   * The projection fails exactly when the series is not empty and its last
   * date does not read as a date, so that the 21-day window is empty; an
   * empty series gives not-enough-data without a trend weight.
   */
  lemma {:induction false} ProjectionFails(trend: seq<TrendPoint>, target: Option<real>, today: string)
    ensures trend == [] ==> ProjectFromTrend(trend, target, today) == Some(NotEnoughData(None))
    ensures ProjectFromTrend(trend, target, today).None?
        <==> trend != [] && ParseISODateLocal(trend[|trend| - 1].entry.date).None?
  {
    if trend != [] {
      RecentWindowLast(trend, 21);
    }
  }

  /** Fewer than ten points never give more than not-enough-data. */
  lemma {:induction false} ProjectionTooFewPoints(trend: seq<TrendPoint>, target: Option<real>, today: string)
    requires 0 < |trend| < MinPoints
    requires ProjectFromTrend(trend, target, today).Some?
    ensures ProjectFromTrend(trend, target, today) == Some(NotEnoughData(Some(trend[|trend| - 1].trendWeight)))
  {
  }

  /**
   * With today the text of day `now` (as `toLocalISODate` prints any day
   * from year 100 on, by `ParseToLocalISODate`), the projected date is the
   * text of the day `daysToTarget` later, and that is exactly how many days
   * it lies after today.
   */
  lemma {:induction false} LadderFromToday(latest: real, tooLittle: bool, slope: Option<real>, slope14: Option<real>,
                                           target: Option<real>, today: string, now: int)
    requires ParseISODateLocal(today) == Some(now)
    requires Ladder(latest, tooLittle, slope, slope14, target, today).Projected?
    ensures var r := Ladder(latest, tooLittle, slope, slope14, target, today);
      && r.projectedDate == ToLocalISODate(now + r.daysToTarget)
      && (FromDayNumber(now + r.daysToTarget).fullYear >= 100 ==>
            DaysBetween(today, r.projectedDate) == Some(r.daysToTarget))
  {
    var r := Ladder(latest, tooLittle, slope, slope14, target, today);
    LadderDates(latest, tooLittle, slope, slope14, target, today);
    DaysAfter(today, now, r.daysToTarget);
  }

  /** Moving the text of day `now` by `n` days gives the text of day `now + n`, `n` days later. */
  lemma {:induction false} DaysAfter(today: string, now: int, n: int)
    requires ParseISODateLocal(today) == Some(now)
    ensures AddDays(today, n) == ToLocalISODate(now + n)
    ensures FromDayNumber(now + n).fullYear >= 100 ==> DaysBetween(today, AddDays(today, n)) == Some(n)
  {
    AddDaysOf(today, n, now);
    if FromDayNumber(now + n).fullYear >= 100 {
      ParseToLocalISODate(now + n);
      DaysBetweenOf(today, AddDays(today, n), now, now + n);
    }
  }
}
