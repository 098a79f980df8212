# Weight tracking core in Dafny

A verified model of the computational core of a personal weight-tracking app.
It covers three parts:

- **Reliability and trend.** Each daily check-in (weight, weigh time, poo
  timing) gets a reliability score. The check-ins are sorted by date and
  smoothed into an exponentially weighted moving average. In that average, a
  less reliable weigh-in moves the trend less.
- **Projection.** A weighted linear regression runs over the last 21 days of
  the trend. Its slope is classified into one of five statuses: not enough
  data, no target, target reached, no downward trend, or projected. A
  projection comes with a projected date, and a confidence window built from
  the 14-day and 21-day slopes.
- **Calendar dates.** Dates are `YYYY-MM-DD` texts in local time. The model
  formats them, parses them (including `new Date(y, m - 1, d)`'s carrying of
  an out-of-range month or day), counts the days between two of them, and
  shifts one by a number of days.
- **Store.** The app store keeps the entries and the settings. It supports
  save (update the entry for that date, or insert a new one, then sort by
  date), delete by id, set target, complete onboarding, reset, and
  seed-if-empty.

Modules, one per file:

| file | module | models |
|---|---|---|
| wrappers.dfy | `Wrappers` | `Option` (JavaScript `null`, `NaN` and the invalid `Date`) |
| models.dfy | `Models` | the records of `src/types/models.ts`; the projection result as a sum type plus its flat nullable record |
| numeric.dfy | `Numeric` | `Math.round` and `Number(x.toFixed(3))` on exact reals |
| text.dfy | `Text` | `localeCompare` as code-unit order, decimal digits, `split('-')` |
| calendar.dfy | `Calendar` | the proleptic Gregorian calendar as day numbers; local date fields; the rollover of the `Date` constructor |
| dates.dfy | `Dates` | `src/utils/date.ts` |
| ordering.dfy | `EntryOrder` | `sort((a, b) => a.date.localeCompare(b.date))`: a stable insertion sort by date |
| lists.dfy | `Lists` | `Array.prototype.filter` |
| trend.dfy | `Trend` | `src/utils/trend.ts` |
| regression.dfy | `Regression` | `weightedLinearRegression` |
| projection.dfy | `Projection` | the rest of `src/utils/projection.ts` |
| store.dfy | `Store` | `src/store/useAppStore.ts` (class `AppStore`) |

How JavaScript values and operations are represented:

- **A local-midnight `Date`** is its day number: days since 1 January of
  year 0 in the proleptic Gregorian calendar.
- **An invalid `Date`, and the `NaN` that arithmetic on it gives,** is
  `None`.
- **`daysBetween`** is the difference of two day numbers. This is exact,
  because both dates sit at local midnight.
- **`trend.filter(...)`** is the generic `Lists.Filter`.
- **`createProjection`** is `ProjectFromTrend`. That function finds the
  window and the slopes, then hands them to `Ladder`, which holds the status
  rungs in the source's order.
- **The mutating `BuildTrendSeries` loop and `CalculateReliability`** are
  methods. Each is proved equal to the pure function `TrendSeries` or
  `Reliability`, which the lemmas are about.

Three behaviours of the source that the model follows as written:

- `recentWindow` (src/utils/projection.ts:17-21) filters the series by day
  distance from the latest date. The window is a suffix of the series only
  because the series is date-sorted.
- The EWMA test (src/utils/trend.test.ts:25-33) uses two morning weigh-ins.
  Their reliabilities are 1.0 and 0.85, so the second step's rate is
  0.25 · 0.85 = 0.2125.
- The only error the core can throw is the `TypeError` on an empty 21-day
  window (src/utils/projection.ts:36-37). It is listed under "Left out" below.

## Model

| member | source | states |
|---|---|---|
| Trend.WeighBase | src/utils/trend.ts:4-8 | the base score by weigh time lies in [0.6, 1.0] and is 1.0 exactly for a morning weigh-in |
| Trend.PooAdjustment | src/utils/trend.ts:24-30 | the adjustment lies in [-0.15, 0.1]; it is negative exactly when there was no bowel movement, and positive exactly when there was one no later than the weigh-in |
| Trend.Clamp | src/utils/trend.ts:16 | the result is never below `min`; it is never above `max` when `min <= max`; a value inside the bounds is returned unchanged; a value below or above the bounds is replaced by the bound |
| Trend.Reliability | src/utils/trend.ts:21-33 | every weigh time and poo time combination scores within [0.4, 1.0] |
| Trend.CalculateReliability | src/utils/trend.ts:21-33 | the step-by-step scoring (base score, then one adjustment, then clamp) equals `Reliability` and lies in [0.4, 1.0] |
| Trend.ReliabilityValues | src/utils/trend.ts:4-33 | the score of each of the twelve combinations, including (morning, none) = 0.85, (afternoon, morning) = 0.9 and (evening, none) = 0.45 |
| Trend.ReliabilityEarlierWeighIn | src/utils/trend.ts:4-33 | with the same poo timing, an earlier weigh time never scores lower |
| Trend.ReliabilityNoPooLowest | src/utils/trend.ts:24-30 | with the same weigh time, no bowel movement scores strictly lower than any timing of one |
| Trend.SmoothBetween | src/utils/trend.ts:49-50 | an update with a rate in [0, 1] lands between the previous trend and the new weight, and covers exactly the fraction alpha of the distance |
| Trend.SmoothSlower | src/utils/trend.ts:49-50 | a smaller rate moves the trend no farther |
| Trend.AlphaWithin | src/utils/trend.ts:46-49 | the reliability-scaled rate lies in [0, alphaBase] |
| Trend.RawTrendWithin | src/utils/trend.ts:42-51 | when every weight lies in [lo, hi], the unrounded trend does too |
| Trend.TrendSeries | src/utils/trend.ts:38-60 | what `buildTrendSeries` returns: one point per entry, each with a reliability in [0.4, 1.0] |
| Trend.BuildTrendSeries | src/utils/trend.ts:38-60 | the loop that carries `previousTrend` produces exactly `TrendSeries` |
| Trend.TrendSeriesEntries | src/utils/trend.ts:38-59 | one point per entry; the points carry the entries sorted ascending by date, as a permutation of the input; every reliability is in [0.4, 1.0] |
| Trend.TrendSeriesFirst | src/utils/trend.ts:40-57 | the first point is unsmoothed (its trend is the rounded first weight) and its day offset is 0 when its date parses |
| Trend.TrendSeriesAt | src/utils/trend.ts:45-58 | point i holds the i-th sorted entry, its reliability, the rounded i-step average and its day offset from the first date |
| Trend.TrendSeriesOffsets | src/utils/trend.ts:39-57 | for well-formed dates, the day offsets are defined, non-negative and non-decreasing along the series |
| Trend.TrendStep | src/utils/trend.ts:48-51 | each trend value lies between the previous trend and the new weight, and moves by alpha times the gap |
| Trend.LessReliableMovesLess | src/utils/trend.ts:35-50 | of two equal weigh-ins, the less reliable one moves the trend no farther |
| Trend.TwoMorningsExample | src/utils/trend.test.ts:25-33 | for two morning weigh-ins, the series is the same whether they are passed in date order (as the test does) or reversed: date-sorted, with reliabilities 1.0 and 0.85 and trends 80 and 79.788 |
| Numeric.Round3 | src/utils/trend.ts:56 | `toFixed(3)` lands within 0.0005 of its input on a whole number of thousandths, and keeps the sign |
| Numeric.Round3Exact | src/utils/projection.ts:43 | a whole number of thousandths is left unchanged |
| Numeric.JsRound | src/utils/projection.ts:50 | `Math.round` returns the integer in (x - 0.5, x + 0.5] |
| Numeric.JsRoundMonotone | src/utils/projection.ts:50-57 | `Math.round` is monotone |
| Text.LexLessTransitive | src/utils/trend.ts:39 | the `localeCompare` order on dates is transitive |
| Text.LexLessTrichotomy | src/utils/trend.ts:39 | any two distinct dates are ordered one way or the other |
| Text.JoinSplit | src/utils/date.ts:11 | splitting on '-' loses nothing: joining the parts gives the text back |
| EntryOrder.SortByDatePermutes | src/utils/trend.ts:39 | sorting by date gives a date-ascending permutation of its input |
| EntryOrder.SortByDateStable | src/store/useAppStore.ts:70 | the sort is stable: the entries with any one date keep their relative order |
| Calendar.MakeDayCarry | src/utils/date.ts:12 | the `Date` constructor's month rollover carries `monthIndex / 12` into the year and keeps `monthIndex % 12` |
| Calendar.DayNumberOrder | src/utils/date.ts:15-18 | a calendar date comes before another iff its day number is smaller |
| Calendar.FromDayNumberOf | src/utils/date.ts:3-8 | reading the local date fields back from a day number gives the same date |
| Dates.InferDefaultWeighTime | src/utils/date.ts:20-25 | hours 4 to 11 give morning, 12 to 17 afternoon, and all others evening, each as an iff |
| Dates.InferDefaultWeighTimeMonotone | src/utils/date.ts:20-25 | from 4 a.m. on, a later hour never gives an earlier weigh time |
| Dates.ToLocalISODate | src/utils/date.ts:3-8 | formatting a day never produces the text of an invalid date: the first character is a digit or '-', never the 'N' of "NaN-NaN-NaN" |
| Dates.ParseISODateLocal | src/utils/date.ts:10-13 | a text with fewer than three '-'-separated parts is an invalid date |
| Dates.DaysBetween | src/utils/date.ts:15-18 | the count is NaN exactly when either date is invalid, and a valid date is 0 days from itself |
| Dates.AddDays | src/utils/date.ts:27-31 | the result is the invalid-date text exactly when the input does not parse (otherwise its first character is never the 'N' of "NaN-NaN-NaN") |
| Dates.ParseFormat | src/utils/date.ts:3-13 | parsing the formatted text of a date from year 100 on gives that date back |
| Dates.ParseToLocalISODate | src/utils/date.ts:3-13 | `parseISODateLocal(toLocalISODate(d))` is `d` for days from year 100 on |
| Dates.ISODateRoundTrip | src/utils/date.ts:3-13 | a well-formed `YYYY-MM-DD` text parses to the day its fields name, and formats back to the same text |
| Dates.FormatIsISODate | src/utils/date.ts:3-8 | a date with a four-digit year formats to a well-formed text whose fields are that date |
| Dates.InvalidDateUnreadable | src/utils/date.ts:10-13 | the text printed for an invalid date does not parse |
| Dates.DaysBetweenSelf | src/utils/date.ts:15-18 | a parseable date is 0 days from itself; otherwise the result is NaN |
| Dates.DaysBetweenAntisymmetric | src/utils/date.ts:15-18 | swapping the arguments negates the count |
| Dates.DaysBetweenAdditive | src/utils/date.ts:15-18 | counts add up along a chain of three dates |
| Dates.ISODateOrder | src/utils/date.ts:10-18 | for well-formed texts, the `localeCompare` order agrees with the sign of `daysBetween` (both directions), and equal texts are 0 days apart |
| Dates.DaysBetweenAddDays | src/utils/date.ts:27-31 | `addDays(a, n)` is `n` days after `a`, for results from year 100 on |
| Dates.AddDaysOf | src/utils/date.ts:27-31 | `addDays` formats the parsed day shifted by `n` |
| Dates.AddDaysZero | src/utils/date.ts:27-31 | adding 0 days leaves a well-formed date text unchanged |
| Dates.AddDaysAddDays | src/utils/date.ts:27-31 | adding m and then n days equals adding m + n days |
| Dates.AddDaysToLocalISODate | src/utils/date.ts:27-31 | adding days to today's text is today shifted by that many days |
| Dates.AddDaysShift | src/utils/date.ts:27-31 | `addDays` on a date's text is the text of that date moved by `n` calendar days |
| Dates.AddOneDayYearEnd | src/utils/date.ts:27-31 | the day after 31 December is 1 January of the next year |
| Dates.AddOneDayFebruary | src/utils/date.ts:27-31 | the day after 28 February is 29 February in a leap year and 1 March otherwise |
| Regression.WeightedLinearRegression | src/utils/projection.ts:5-15 | a fit exists only with at least two points, a non-zero total weight and a non-zero spread of x |
| Regression.RegressionUndefined | src/utils/projection.ts:6-13 | there is no fit with fewer than two points, with zero total weight, or when all x are equal |
| Regression.RegressionDefined | src/utils/projection.ts:7-13 | with positive weights and two different x, a fit exists |
| Regression.RegressionCentroid | src/utils/projection.ts:9-14 | the slope is Σw(x-x̄)(y-ȳ) / Σw(x-x̄)², and the fitted line passes through the weighted centroid (x̄, ȳ) |
| Regression.RegressionExactLine | src/utils/projection.ts:5-15 | for points lying on y = a + b·x, the fit is exactly slope b and intercept a |
| Regression.DescendingLineExample | src/utils/trend.test.ts:38-48 | the points (0, 80, 1), (1, 79.8, 1), (2, 79.6, 0.8) fit slope -0.2 and intercept 80 |
| Lists.FilterMembers | src/utils/projection.ts:20 | an element survives the filter iff it is in the input and the predicate keeps it |
| Lists.FilterAppend | src/store/useAppStore.ts:83 | filtering distributes over concatenation |
| Projection.RecentWindow | src/utils/projection.ts:17-21 | the window is no longer than the series, and every point in it comes from the series and lies within `days` days of the latest date |
| Projection.RecentWindowMembers | src/utils/projection.ts:17-21 | an empty series has an empty window; otherwise a point is in the window iff it is in the series and its date is at most `days` days before the latest date |
| Projection.RecentWindowLast | src/utils/projection.ts:17-21 | when the latest date parses and `days >= 0`, the window ends with the latest point; when it does not parse, the window is empty |
| Projection.SlopeFrom | src/utils/projection.ts:23-27 | a slope exists only for at least two points whose day offsets are all known |
| Projection.SlopeFromLine | src/utils/projection.ts:23-27 | no slope with fewer than two points or with an unknown day offset; points whose trend lies on a line, with positive reliabilities and two different offsets, give exactly that line's slope, whatever the re-zeroing offset |
| Projection.RateOf | src/utils/projection.ts:43 | the daily rate is the slope, and the weekly rate is within 0.0005 of seven times it |
| Projection.DaysAtSlope | src/utils/projection.ts:50 | the days to the target are never negative when some weight remains to lose |
| Projection.DaysAtSlopeMonotone | src/utils/projection.ts:50-57 | a steeper slope never takes more days |
| Projection.DaysAtSlopeFarther | src/utils/projection.ts:46-50 | more weight to lose never takes fewer days |
| Projection.Qualifying | src/utils/projection.ts:53 | the candidates are exactly the known slopes below -0.01, at most two of them |
| Projection.SeqMin | src/utils/projection.ts:56 | `Math.min(...valid)` is an element and a lower bound |
| Projection.SeqMax | src/utils/projection.ts:57 | `Math.max(...valid)` is an element and an upper bound |
| Projection.WindowDaysOrder | src/utils/projection.ts:50-57 | earlier days <= days at the 21-day slope <= later days, all non-negative |
| Projection.Ladder | src/utils/projection.ts:38-60 | every status past not-enough-data carries the 21-day slope and the latest trend weight; a projection has a non-negative day count and always a confidence window |
| Projection.LadderStatus | src/utils/projection.ts:38-60 | each of the five statuses holds iff its rung's condition holds, in the source's order: too little data or no slope; no target; at or below target; slope >= -0.01; otherwise projected |
| Projection.LadderRate | src/utils/projection.ts:43-60 | every status past not-enough-data carries the slope, the weekly rate `Round3(7 * slope)` and the latest trend weight |
| Projection.LadderDates | src/utils/projection.ts:46-51 | target reached gives today and 0 days; projected gives round(remaining / abs(slope)) days, never negative, and today plus that many days as the date |
| Projection.LadderWindow | src/utils/projection.ts:52-58 | a projection always has a window: likely is the projected date, earlier and later are today plus the days at the fastest and slowest qualifying slope, and earlier <= likely <= later in days |
| Projection.LadderFartherTarget | src/utils/projection.ts:46-50 | a lower target never takes fewer days |
| Projection.LadderFromToday | src/utils/projection.ts:31-51 | when today's text parses to day `now` (as `toLocalISODate` output does, by `ParseToLocalISODate`), the projected date is the text of day `now + daysToTarget`, and lies exactly `daysToTarget` days after today |
| Projection.DaysAfter | src/utils/date.ts:27-31 | moving the text of day `now` by `n` days gives the text of day `now + n`, which is `n` days later |
| Projection.ProjectFromTrend | src/utils/projection.ts:32-60 | an empty series gives not-enough-data with no weight; any other status needs at least 10 trend points |
| Projection.CreateProjection | src/utils/projection.ts:29-34 | no entries give not-enough-data with every number null; any other status needs at least 10 entries |
| Projection.ProjectionFails | src/utils/projection.ts:32-37 | an empty series gives not-enough-data with no weight; otherwise the computation fails iff the latest date does not parse (the empty 21-day window is indexed) |
| Projection.ProjectionTooFewPoints | src/utils/projection.ts:38 | fewer than 10 points give not-enough-data carrying the latest trend weight |
| Models.ToRecord | src/types/models.ts:27-40 | the flat record has dates and day counts exactly for target-reached and projected, rates exactly past not-enough-data, and a window only for projected |
| Store.WithDateHas | src/store/useAppStore.ts:61-62 | `find` by date succeeds iff some entry has that date |
| Store.DatesUniquePairwise | src/store/useAppStore.ts:59-82 | "at most one entry per date" is the same as "no two positions share a date" |
| Store.Overwrite | src/store/useAppStore.ts:67 | an overwritten entry keeps its id and creation time, takes every field of the input, and gets the new update time |
| Store.ApplyInputEntries | src/store/useAppStore.ts:64-69 | updating by date changes exactly the entries with the input's date, in place, keeping their ids, dates and creation times |
| Store.NewEntry | src/store/useAppStore.ts:74-79 | a created entry takes every field of the input, and `now` as its creation and update time |
| Store.Upsert | src/store/useAppStore.ts:59-82 | the saved list is sorted by date; it keeps its length when the date was present, and grows by one otherwise |
| Store.UpsertNew | src/store/useAppStore.ts:74-81 | saving a new date adds exactly the created entry and leaves the list sorted by date |
| Store.UpsertExisting | src/store/useAppStore.ts:61-71 | saving an existing date keeps the length, is a permutation of the updated entries, and leaves the list sorted by date |
| Store.UpsertDatesUnique | src/store/useAppStore.ts:59-82 | saving keeps dates unique, and leaves exactly one entry with the saved date |
| Store.WithDateHasAfterSave | src/store/useAppStore.ts:59-82 | after a save, an entry with the saved date exists |
| Store.WithoutId | src/store/useAppStore.ts:83 | deleting never lengthens the list, and what remains came from the list and has another id |
| Store.WithoutIdEntries | src/store/useAppStore.ts:83 | an entry survives a delete iff its id differs; delete distributes over concatenation; deleting an absent id changes nothing |
| Store.WithoutIdKeeps | src/store/useAppStore.ts:83 | deleting keeps dates unique and keeps the date order |
| Store.AppStore.constructor | src/store/useAppStore.ts:57-58 | the store starts with no entries and the default settings, satisfying its invariant |
| Store.AppStore.SaveEntry | src/store/useAppStore.ts:59-82 | the entries become the upsert of the old ones; the settings are unchanged; the result is sorted, holds the saved date and keeps the invariant |
| Store.AppStore.DeleteEntry | src/store/useAppStore.ts:83 | the entries become the old ones without that id; the settings are unchanged; the invariant is kept |
| Store.AppStore.SetTargetWeight | src/store/useAppStore.ts:84-85 | only the target changes |
| Store.AppStore.CompleteOnboarding | src/store/useAppStore.ts:86-87 | only the onboarding flag changes, to true |
| Store.AppStore.ResetAllData | src/store/useAppStore.ts:88 | no entries, and the default settings (no target, kg, onboarding not completed) |
| Store.AppStore.SeedIfEmpty | src/store/useAppStore.ts:89-93 | the sample replaces the entries only in development mode with no entries; the settings are unchanged |

## Left out

- **Floating point.** Numbers are exact reals. In the two-entry test, the
  model's second trend value is exactly 79.7875, which rounds to 79.788.
  The program (and its test) give 79.787, because binary 79.7875 is
  79.78749999…, which `toFixed(3)` rounds down.
- Numeric.Round3: ties are exact halves rounded away from zero. This is what
  `toFixed` does for exact decimals. A binary value just below the half is
  not modelled.
- Store.NewEntry: both stamps of a new entry come from one clock reading
  `now`, so `createdAt == updatedAt`. The source reads the clock twice
  (src/store/useAppStore.ts:77-78), and the two readings can differ by a
  millisecond.
- Store.ApplyInput: every entry with the input's date gets the same
  `updatedAt`, the one reading `now`. The source calls `nowISO()` once per
  matching entry inside the `map` (src/store/useAppStore.ts:67). While dates
  are unique (`Store.UpsertDatesUnique`) at most one entry matches, so the
  difference never shows.
- Dates.ParseISODateLocal: the `Date` time-value range (TimeClip, ±8.64e15 ms,
  about years −271821 to 275760) is not modelled. Outside it, JavaScript gives
  an invalid date and `toLocalISODate` prints "NaN-NaN-NaN"; the model gives a
  day number for every year. Dates.ToLocalISODate, Dates.ParseFormat,
  Dates.ParseToLocalISODate, Dates.DaysBetweenAddDays, Dates.AddDaysAddDays
  and Dates.AddDaysShift inherit this through their "year 100 on" premises,
  which have no upper bound.
- **`NaN` weights and reliabilities** are not modelled. Weights are reals,
  and reliabilities are bounded.
- **Time zones, daylight saving and millisecond arithmetic.** A date is a
  whole local day, so `Math.round(ms / 86400000)` is the exact day
  difference.
- **`Number()` on date parts** only covers the empty text and runs of
  decimal digits. Signs, spaces, exponents and hexadecimal forms give `NaN`
  here.
- **Years 0 to 99.** The `Date` constructor's reading of these as 1900 to
  1999 is modelled in `ConstructorYear`. Round-trip and shift lemmas require
  years from 100 on.
- **`localeCompare`** is code-unit lexicographic order. That agrees with
  locale collation on the digit-and-dash date texts the app stores, but not
  on arbitrary strings.
- **The clock and the environment are parameters:**
  - `new Date()`: the `now` day number for `CreateProjection`, and the hour
    for `InferDefaultWeighTime`;
  - `nowISO()`: `now` in the store;
  - `Math.random()`: `idSuffix` for a new entry's id;
  - `__DEV__`: `devMode`;
  - `sampleData()`: `sample` for `SeedIfEmpty`. Its body, fake data built
    from the clock, is not part of this model.
- **The 21-day window throw.** `createProjection` indexes `recent21[0]`. If
  the latest date does not parse, the window is empty and the code throws a
  `TypeError`. The model returns `None` there (`ProjectionFails`).
- **The 14-day slope** is evaluated up front and passed to `Ladder`. The
  source computes it only on the projected rung. Both are pure, so the
  result is the same.
- Regression.WeightedLinearRegression: least-squares optimality (the normal
  equations) is not proved. The model proves the defined and undefined
  cases, the centroid property, exact recovery of a line, and the test's
  worked example.
- **The twelve-entry projection test** is not proved as a concrete
  instance. Unfolding twelve dates through the calendar is too costly.
  `LadderStatus`, `LadderDates` and `LadderWindow` state the general case it
  exercises.
- **Persistence, rendering and navigation** are not part of this model:
  `zustand`'s `persist`, `AsyncStorage`, the screens, charts and CSV export.
