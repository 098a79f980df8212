/**
 * The weight trend: a reliability score for each check-in from the timing
 * of the weigh-in and of the bowel movement, and an exponentially weighted
 * moving average over the entries in date order whose rate is scaled by
 * that score, so less trustworthy weigh-ins move the trend less.
 */
module Trend {
  import opened Wrappers
  import opened Text
  import opened Models
  import opened Numeric
  import opened Dates
  import opened EntryOrder

  /** The smoothing rate used when the caller gives none. */
  const DefaultAlphaBase: real := 0.25

  /** The starting score of a weigh-in by part of the day. */
  function WeighBase(t: WeighTime): (b: real)
    ensures 0.6 <= b <= 1.0
    ensures b == 1.0 <==> t == Morning
  {
    match t
    case Morning => 1.0
    case Afternoon => 0.8
    case Evening => 0.6
  }

  /** `clamp(value, min, max)`, that is `Math.max(min, Math.min(max, value))`. */
  function Clamp(value: real, min: real, max: real): (r: real)
    ensures r >= min
    ensures min <= max ==> r <= max
    ensures min <= value <= max ==> r == value
    ensures value < min ==> r == min
    ensures min <= max < value ==> r == max
  {
    var upper := if max < value then max else value;
    if min > upper then min else upper
  }

  /**
   * How the bowel movement changes the score: no movement lowers it, one
   * before the weigh-in raises it, one in the same part of the day raises it
   * a little, one after leaves it.
   */
  function PooAdjustment(weighTime: WeighTime, pooTime: PooTime): (a: real)
    ensures -0.15 <= a <= 0.1
    ensures a < 0.0 <==> pooTime.NoPoo?
    ensures a > 0.0 <==> pooTime.PooAt? && Rank(pooTime.time) <= Rank(weighTime)
  {
    match pooTime
    case NoPoo => -0.15
    case PooAt(t) =>
      if Rank(t) < Rank(weighTime) then 0.1
      else if Rank(t) == Rank(weighTime) then 0.05
      else 0.0
  }

  /** The reliability of a check-in: base score plus adjustment, clamped to [0.4, 1.0]. */
  function Reliability(weighTime: WeighTime, pooTime: PooTime): (r: real)
    ensures 0.4 <= r <= 1.0
  {
    Clamp(WeighBase(weighTime) + PooAdjustment(weighTime, pooTime), 0.4, 1.0)
  }

  /** `calculateReliability`: adjust a running score step by step, then clamp it. */
  method CalculateReliability(weighTime: WeighTime, pooTime: PooTime) returns (reliability: real)
    ensures reliability == Reliability(weighTime, pooTime)
    ensures 0.4 <= reliability <= 1.0
  {
    var score := WeighBase(weighTime);
    if pooTime.NoPoo? {
      score := score - 0.15;
    } else if Rank(pooTime.time) < Rank(weighTime) {
      score := score + 0.1;
    } else if Rank(pooTime.time) == Rank(weighTime) {
      score := score + 0.05;
    }
    reliability := Clamp(score, 0.4, 1.0);
  }

  /** The score of every one of the twelve combinations. */
  lemma {:induction false} ReliabilityValues()
    ensures Reliability(Morning, NoPoo) == 0.85
    ensures Reliability(Morning, PooAt(Morning)) == 1.0
    ensures Reliability(Morning, PooAt(Afternoon)) == 1.0
    ensures Reliability(Morning, PooAt(Evening)) == 1.0
    ensures Reliability(Afternoon, NoPoo) == 0.65
    ensures Reliability(Afternoon, PooAt(Morning)) == 0.9
    ensures Reliability(Afternoon, PooAt(Afternoon)) == 0.85
    ensures Reliability(Afternoon, PooAt(Evening)) == 0.8
    ensures Reliability(Evening, NoPoo) == 0.45
    ensures Reliability(Evening, PooAt(Morning)) == 0.7
    ensures Reliability(Evening, PooAt(Afternoon)) == 0.7
    ensures Reliability(Evening, PooAt(Evening)) == 0.65
  {
  }

  /** For the same bowel-movement timing, an earlier weigh-in is never less reliable. */
  lemma {:induction false} ReliabilityEarlierWeighIn(w1: WeighTime, w2: WeighTime, p: PooTime)
    requires Rank(w1) <= Rank(w2)
    ensures Reliability(w1, p) >= Reliability(w2, p)
  {
  }

  /** Logging no bowel movement gives the lowest score for each weigh time. */
  lemma {:induction false} ReliabilityNoPooLowest(w: WeighTime, t: WeighTime)
    ensures Reliability(w, NoPoo) < Reliability(w, PooAt(t))
  {
  }

  // ---------------------------------------------------------------------
  // Smoothing
  // ---------------------------------------------------------------------

  /** One step of the moving average: blend the new weight into the previous trend at rate `alpha`. */
  function Smooth(previous: real, weight: real, alpha: real): real
  {
    alpha * weight + (1.0 - alpha) * previous
  }

  function Min(a: real, b: real): real { if a <= b then a else b }
  function Max(a: real, b: real): real { if a <= b then b else a }
  function Abs(x: real): real { if x < 0.0 then -x else x }

  /**
   * A step at a rate between 0 and 1 lands between the previous trend and
   * the new weight, and covers the fraction `alpha` of the distance.
   */
  lemma {:induction false} SmoothBetween(previous: real, weight: real, alpha: real)
    requires 0.0 <= alpha <= 1.0
    ensures Min(previous, weight) <= Smooth(previous, weight, alpha) <= Max(previous, weight)
    ensures Abs(Smooth(previous, weight, alpha) - previous) == alpha * Abs(weight - previous)
  {
    var d := weight - previous;
    assert Smooth(previous, weight, alpha) - previous == alpha * d;
    if d >= 0.0 {
      assert alpha * d <= d;
    } else {
      assert alpha * d >= d;
    }
  }

  /** A lower rate moves the trend no further than a higher one. */
  lemma {:induction false} SmoothSlower(previous: real, weight: real, a1: real, a2: real)
    requires 0.0 <= a1 <= a2 <= 1.0
    ensures Abs(Smooth(previous, weight, a1) - previous) <= Abs(Smooth(previous, weight, a2) - previous)
  {
    SmoothBetween(previous, weight, a1);
    SmoothBetween(previous, weight, a2);
    var d := Abs(weight - previous);
    assert Abs(Smooth(previous, weight, a1) - previous) == a1 * d;
    assert Abs(Smooth(previous, weight, a2) - previous) == a2 * d;
    assert a1 * d <= a2 * d by {
      assert d >= 0.0;
      assert (a2 - a1) * d >= 0.0;
    }
  }

  /** The rate a check-in is blended in at. */
  function Alpha(alphaBase: real, e: Entry): real
  {
    alphaBase * Reliability(e.weighTime, e.pooTime)
  }

  lemma {:induction false} AlphaOf(alphaBase: real, reliability: real, e: Entry)
    requires reliability == Reliability(e.weighTime, e.pooTime)
    ensures alphaBase * reliability == Alpha(alphaBase, e)
  {
  }

  /** With a base rate between 0 and 1 the rate is between 0 and the base rate. */
  lemma {:induction false} AlphaWithin(alphaBase: real, e: Entry)
    requires 0.0 <= alphaBase <= 1.0
    ensures 0.0 <= Alpha(alphaBase, e) <= alphaBase <= 1.0
  {
    var r := Reliability(e.weighTime, e.pooTime);
    assert alphaBase * (1.0 - r) >= 0.0;
  }

  /**
   * The unrounded trend after the entries of `s` in order: the first weight,
   * then one smoothing step per later entry.
   */
  function RawTrend(s: seq<Entry>, alphaBase: real): real
    requires s != []
  {
    if |s| == 1 then s[0].weightKg
    else
      var last := s[|s| - 1];
      Smooth(RawTrend(s[..|s| - 1], alphaBase), last.weightKg, Alpha(alphaBase, last))
  }

  /** The trend after the first `i + 1` entries is one step on from the trend after the first `i`. */
  lemma {:induction false} RawTrendPrefix(s: seq<Entry>, i: nat, alphaBase: real)
    requires 0 < i < |s|
    ensures RawTrend(s[..i + 1], alphaBase) == Smooth(RawTrend(s[..i], alphaBase), s[i].weightKg, Alpha(alphaBase, s[i]))
  {
    assert s[..i + 1][..i] == s[..i];
  }

  /** Every entry of `s` weighs at least `lo` and at most `hi`. */
  predicate WeightsWithin(s: seq<Entry>, lo: real, hi: real)
  {
    forall i :: 0 <= i < |s| ==> lo <= s[i].weightKg <= hi
  }

  /**
   * With a base rate between 0 and 1 the trend never leaves the range of the
   * logged weights.
   */
  lemma {:induction false} RawTrendWithin(s: seq<Entry>, alphaBase: real, lo: real, hi: real)
    requires s != [] && 0.0 <= alphaBase <= 1.0
    requires WeightsWithin(s, lo, hi)
    ensures lo <= RawTrend(s, alphaBase) <= hi
  {
    if |s| > 1 {
      var init, last := s[..|s| - 1], s[|s| - 1];
      assert WeightsWithin(init, lo, hi) by {
        forall i | 0 <= i < |init|
          ensures lo <= init[i].weightKg <= hi
        {
          assert init[i] == s[i];
        }
      }
      RawTrendWithin(init, alphaBase, lo, hi);
      AlphaWithin(alphaBase, last);
      SmoothBetween(RawTrend(init, alphaBase), last.weightKg, Alpha(alphaBase, last));
    }
  }

  // ---------------------------------------------------------------------
  // The series
  // ---------------------------------------------------------------------

  /** The point the series holds for the `i`-th entry of the sorted list. */
  function PointAt(sorted: seq<Entry>, i: nat, alphaBase: real): TrendPoint
    requires i < |sorted|
  {
    var e := sorted[i];
    TrendPoint(e, Reliability(e.weighTime, e.pooTime), Round3(RawTrend(sorted[..i + 1], alphaBase)),
               DaysBetween(sorted[0].date, e.date))
  }

  /** The points for the first `n` entries of the sorted list. */
  function Points(sorted: seq<Entry>, n: nat, alphaBase: real): seq<TrendPoint>
    requires n <= |sorted|
  {
    if n == 0 then [] else Points(sorted, n - 1, alphaBase) + [PointAt(sorted, n - 1, alphaBase)]
  }

  lemma {:induction false} PointsAt(sorted: seq<Entry>, n: nat, alphaBase: real)
    requires n <= |sorted|
    ensures |Points(sorted, n, alphaBase)| == n
    ensures forall j :: 0 <= j < n ==> Points(sorted, n, alphaBase)[j] == PointAt(sorted, j, alphaBase)
  {
    if n > 0 {
      PointsAt(sorted, n - 1, alphaBase);
      var prefix := Points(sorted, n - 1, alphaBase);
      assert Points(sorted, n, alphaBase) == prefix + [PointAt(sorted, n - 1, alphaBase)];
      forall j | 0 <= j < n - 1
        ensures Points(sorted, n, alphaBase)[j] == PointAt(sorted, j, alphaBase)
      {
        assert Points(sorted, n, alphaBase)[j] == prefix[j];
      }
    }
  }

  /** One more point: the point for the next entry, from its reliability and the unrounded trend so far. */
  lemma {:induction false} PointsStep(sorted: seq<Entry>, n: nat, alphaBase: real, reliability: real, trend: real)
    requires n < |sorted|
    requires reliability == Reliability(sorted[n].weighTime, sorted[n].pooTime)
    requires trend == RawTrend(sorted[..n + 1], alphaBase)
    ensures Points(sorted, n + 1, alphaBase)
         == Points(sorted, n, alphaBase) + [TrendPoint(sorted[n], reliability, Round3(trend), DaysBetween(sorted[0].date, sorted[n].date))]
  {
  }

  /** What `buildTrendSeries(entries, alphaBase)` returns. */
  function TrendSeries(entries: seq<Entry>, alphaBase: real): (points: seq<TrendPoint>)
    ensures |points| == |entries|
    ensures forall p :: p in points ==> 0.4 <= p.reliability <= 1.0
  {
    var sorted := SortByDate(entries);
    SortByDatePermutes(entries);
    PointsAt(sorted, |sorted|, alphaBase);
    Points(sorted, |sorted|, alphaBase)
  }

  /**
   * `buildTrendSeries`: sort a copy of the entries by date, then walk them
   * carrying the previous trend, and emit one point per entry.
   */
  method BuildTrendSeries(entries: seq<Entry>, alphaBase: real) returns (points: seq<TrendPoint>)
    ensures points == TrendSeries(entries, alphaBase)
  {
    var sorted := SortByDate(entries);
    points := [];
    if |sorted| == 0 {
      return;
    }
    var previousTrend := sorted[0].weightKg;
    var firstDate := sorted[0].date;
    var index := 0;
    while index < |sorted|
      invariant 0 <= index <= |sorted|
      invariant points == Points(sorted, index, alphaBase)
      invariant previousTrend == RawTrend(sorted[..if index == 0 then 1 else index], alphaBase)
    {
      var entry := sorted[index];
      var reliability := CalculateReliability(entry.weighTime, entry.pooTime);
      if index != 0 {
        var alpha := alphaBase * reliability;
        AlphaOf(alphaBase, reliability, entry);
        assert previousTrend == RawTrend(sorted[..index], alphaBase);
        previousTrend := Smooth(previousTrend, entry.weightKg, alpha);
        RawTrendPrefix(sorted, index, alphaBase);
      }
      PointsStep(sorted, index, alphaBase, reliability, previousTrend);
      points := points + [TrendPoint(entry, reliability, Round3(previousTrend), DaysBetween(firstDate, entry.date))];
      index := index + 1;
    }
  }

  /** The entries the points carry, in order. */
  function EntriesOf(points: seq<TrendPoint>): (s: seq<Entry>)
    ensures |s| == |points|
  {
    seq(|points|, i requires 0 <= i < |points| => points[i].entry)
  }

  /**
   * One point per entry: no entries give no points, and otherwise the points
   * carry the entries sorted ascending by date, each exactly once, with a
   * reliability in [0.4, 1.0].
   */
  lemma {:induction false} TrendSeriesEntries(entries: seq<Entry>, alphaBase: real)
    ensures |TrendSeries(entries, alphaBase)| == |entries|
    ensures EntriesOf(TrendSeries(entries, alphaBase)) == SortByDate(entries)
    ensures SortedByDate(EntriesOf(TrendSeries(entries, alphaBase)))
    ensures multiset(EntriesOf(TrendSeries(entries, alphaBase))) == multiset(entries)
    ensures forall p :: p in TrendSeries(entries, alphaBase) ==> 0.4 <= p.reliability <= 1.0
  {
    SortByDatePermutes(entries);
    PointsAt(SortByDate(entries), |entries|, alphaBase);
  }

  /**
   * The first point holds the earliest entry's own weight, rounded to three
   * decimals, and a day offset of 0 when its date parses.
   */
  lemma {:induction false} TrendSeriesFirst(entries: seq<Entry>, alphaBase: real)
    requires entries != []
    ensures |TrendSeries(entries, alphaBase)| == |SortByDate(entries)| == |entries|
    ensures var first := SortByDate(entries)[0];
      && TrendSeries(entries, alphaBase)[0].trendWeight == Round3(first.weightKg)
      && TrendSeries(entries, alphaBase)[0].dayOffset
         == (if ParseISODateLocal(first.date).Some? then Some(0) else None)
  {
    SortByDatePermutes(entries);
    var sorted := SortByDate(entries);
    PointsAt(sorted, |sorted|, alphaBase);
    assert sorted[..1] == [sorted[0]];
    DaysBetweenSelf(sorted[0].date);
  }

  /** The `i`-th point of the series is the point built for the `i`-th sorted entry. */
  lemma {:induction false} TrendSeriesAt(entries: seq<Entry>, alphaBase: real, i: nat)
    requires i < |entries|
    ensures |TrendSeries(entries, alphaBase)| == |SortByDate(entries)| == |entries|
    ensures TrendSeries(entries, alphaBase)[i] == PointAt(SortByDate(entries), i, alphaBase)
  {
    SortByDatePermutes(entries);
    PointsAt(SortByDate(entries), |entries|, alphaBase);
  }

  /**
   * In a date-sorted list of canonical dates the day counts from the first
   * date start at 0 and never decrease.
   */
  lemma {:induction false} SortedOffsets(sorted: seq<Entry>, i: nat, j: nat)
    requires SortedByDate(sorted)
    requires forall k :: 0 <= k < |sorted| ==> IsISODate(sorted[k].date)
    requires i <= j < |sorted|
    ensures DaysBetween(sorted[0].date, sorted[i].date).Some?
    ensures DaysBetween(sorted[0].date, sorted[j].date).Some?
    ensures 0 <= DaysBetween(sorted[0].date, sorted[i].date).value
              <= DaysBetween(sorted[0].date, sorted[j].date).value
  {
    var a, b, c := sorted[0].date, sorted[i].date, sorted[j].date;
    assert LexLe(a, b) by {
      if 0 == i {
        LexLessIrreflexive(a);
      }
    }
    assert LexLe(b, c) by {
      if i == j {
        LexLessIrreflexive(b);
      }
    }
    ISODateLe(a, b);
    ISODateLe(b, c);
    DaysBetweenAdditive(a, b, c);
  }

  /**
   * For canonical dates the day offsets count calendar days from the first
   * entry: they start at 0 and never decrease along the series.
   */
  lemma {:induction false} TrendSeriesOffsets(entries: seq<Entry>, alphaBase: real, i: nat, j: nat)
    requires forall e :: e in entries ==> IsISODate(e.date)
    requires i <= j < |entries|
    ensures |TrendSeries(entries, alphaBase)| == |entries|
    ensures TrendSeries(entries, alphaBase)[i].dayOffset.Some?
    ensures TrendSeries(entries, alphaBase)[j].dayOffset.Some?
    ensures 0 <= TrendSeries(entries, alphaBase)[i].dayOffset.value <= TrendSeries(entries, alphaBase)[j].dayOffset.value
  {
    SortByDatePermutes(entries);
    var sorted := SortByDate(entries);
    forall k | 0 <= k < |sorted|
      ensures IsISODate(sorted[k].date)
    {
      assert sorted[k] in multiset(entries);
    }
    TrendSeriesAt(entries, alphaBase, i);
    TrendSeriesAt(entries, alphaBase, j);
    SortedOffsets(sorted, i, j);
  }

  /**
   * Later points follow the moving average: the unrounded trend moves from
   * the previous one towards the entry's weight by the fraction
   * alphaBase * reliability, so a less reliable weigh-in moves it less.
   */
  lemma {:induction false} TrendStep(s: seq<Entry>, alphaBase: real)
    requires |s| >= 2 && 0.0 <= alphaBase <= 1.0
    ensures var previous, last := RawTrend(s[..|s| - 1], alphaBase), s[|s| - 1];
      && Min(previous, last.weightKg) <= RawTrend(s, alphaBase) <= Max(previous, last.weightKg)
      && Abs(RawTrend(s, alphaBase) - previous) == Alpha(alphaBase, last) * Abs(last.weightKg - previous)
  {
    var last := s[|s| - 1];
    AlphaWithin(alphaBase, last);
    SmoothBetween(RawTrend(s[..|s| - 1], alphaBase), last.weightKg, Alpha(alphaBase, last));
  }

  /**
   * Two check-ins on top of the same trend with the same weight: the less
   * reliable one moves the trend no further.
   */
  lemma {:induction false} LessReliableMovesLess(previous: real, alphaBase: real, e1: Entry, e2: Entry)
    requires 0.0 <= alphaBase <= 1.0 && e1.weightKg == e2.weightKg
    requires Reliability(e1.weighTime, e1.pooTime) <= Reliability(e2.weighTime, e2.pooTime)
    ensures Abs(Smooth(previous, e1.weightKg, Alpha(alphaBase, e1)) - previous)
         <= Abs(Smooth(previous, e2.weightKg, Alpha(alphaBase, e2)) - previous)
  {
    var r1, r2 := Reliability(e1.weighTime, e1.pooTime), Reliability(e2.weighTime, e2.pooTime);
    assert alphaBase * r1 <= alphaBase * r2;
    assert alphaBase * r2 <= alphaBase * 1.0;
    SmoothSlower(previous, e1.weightKg, Alpha(alphaBase, e1), Alpha(alphaBase, e2));
  }

  /**
   * Two morning weigh-ins a day apart, 80 kg with a bowel movement the same
   * morning and then 79 kg with none, at base rate 0.25: the trend starts at
   * 80 and moves by 0.25 * 0.85 of the one-kilogram drop, to 79.7875, which
   * the series rounds to 79.788. Passing the entries in date order or
   * reversed gives the same series.
   */
  lemma {:induction false} TwoMorningsExample(d1: string, d2: string, id1: string, id2: string, t1: string, t2: string)
    requires LexLess(d1, d2)
    ensures var a := Entry(id1, d1, 80.0, Morning, PooAt(Morning), t1, t1);
      var b := Entry(id2, d2, 79.0, Morning, NoPoo, t2, t2);
      var points := TrendSeries([a, b], DefaultAlphaBase);
      && TrendSeries([b, a], DefaultAlphaBase) == points
      && |points| == 2
      && points[0].entry == a && points[1].entry == b
      && points[0].reliability == 1.0 && points[1].reliability == 0.85
      && points[0].trendWeight == 80.0
      && RawTrend([a, b], DefaultAlphaBase) == 79.7875
      && points[1].trendWeight == 79.788
  {
    var a := Entry(id1, d1, 80.0, Morning, PooAt(Morning), t1, t1);
    var b := Entry(id2, d2, 79.0, Morning, NoPoo, t2, t2);
    ReliabilityValues();
    assert [b, a][..1] == [b];
    assert SortByDate([b]) == [b];
    assert SortByDate([b, a]) == Insert(a, [b]);
    LexLessIrreflexive(d1);
    if LexLess(d2, d1) {
      LexLessTransitive(d1, d2, d1);
    }
    assert Insert(a, [b]) == [a, b];
    assert [a, b][..1] == [a];
    assert SortByDate([a]) == [a];
    assert SortByDate([a, b]) == Insert(b, [a]) == [a, b];
    PointsAt([a, b], 2, DefaultAlphaBase);
    assert [a, b][..1] == [a] && [a, b][..2] == [a, b];
    assert PointAt([a, b], 0, DefaultAlphaBase).trendWeight == Round3(80.0);
    assert RawTrend([a, b], DefaultAlphaBase) == 79.7875;
    assert PointAt([a, b], 1, DefaultAlphaBase).trendWeight == Round3(79.7875);
    Round3Exact(80000);
    assert HalfUp(79.7875 * 1000.0) == 79788;
  }
}
