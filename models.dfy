/**
 * The records the weight tracker passes around: check-in entries, the
 * user's settings, trend points and the projection result. The projection
 * result is a sum type whose variants carry exactly the fields that are
 * meaningful for their status; `ProjectionRecord` is the flat, nullable
 * shape the application reads, and `ToRecord` maps one to the other.
 */
module Models {
  import opened Wrappers

  /** When the weigh-in was taken. */
  datatype WeighTime = Morning | Afternoon | Evening

  /** The position of a part of the day: morning first, evening last. */
  function Rank(t: WeighTime): nat
  {
    match t
    case Morning => 1
    case Afternoon => 2
    case Evening => 3
  }

  /** When the bowel movement happened, relative to the same parts of the day, if at all. */
  datatype PooTime = NoPoo | PooAt(time: WeighTime)

  /** One daily check-in. Timestamps are opaque texts. */
  datatype Entry = Entry(
    id: string,
    date: string,
    weightKg: real,
    weighTime: WeighTime,
    pooTime: PooTime,
    createdAt: string,
    updatedAt: string)

  datatype WeightUnit = Kg

  datatype Settings = Settings(targetWeightKg: Option<real>, unit: WeightUnit, onboardingCompleted: bool)

  /**
   * A smoothed point of the trend series, one per entry. The day offset is
   * `None` where the source computes NaN (a date that does not parse).
   */
  datatype TrendPoint = TrendPoint(entry: Entry, reliability: real, trendWeight: real, dayOffset: Option<int>)

  datatype Status = TargetReachedStatus | ProjectedStatus | NoTargetStatus | NotEnoughDataStatus | NoDownwardTrendStatus

  /** A fitted rate of change: per week (rounded to 3 decimals) and per day. */
  datatype Rate = Rate(weeklyRateKg: real, slopeKgPerDay: real)

  datatype ConfidenceWindow = ConfidenceWindow(likely: string, earlier: string, later: string)

  datatype ProjectionResult =
    | NotEnoughData(latestTrendWeight: Option<real>)
    | NoTarget(rate: Rate, currentTrendWeight: real)
    | TargetReached(rate: Rate, currentTrendWeight: real, projectedDate: string, daysToTarget: int)
    | NoDownwardTrend(rate: Rate, currentTrendWeight: real)
    | Projected(rate: Rate, currentTrendWeight: real, projectedDate: string, daysToTarget: int,
                confidenceWindow: Option<ConfidenceWindow>)
  {
    function Status(): Status
    {
      match this
      case NotEnoughData(_) => NotEnoughDataStatus
      case NoTarget(_, _) => NoTargetStatus
      case TargetReached(_, _, _, _) => TargetReachedStatus
      case NoDownwardTrend(_, _) => NoDownwardTrendStatus
      case Projected(_, _, _, _, _) => ProjectedStatus
    }

    /** The fixed message shown for each outcome. */
    function Insight(): string
    {
      match this
      case NotEnoughData(_) => NeedMoreData
      case NoTarget(rate, _) => if rate.slopeKgPerDay < 0.0 then MovingDown else NoDownwardYet
      case TargetReached(_, _, _, _) => "Target reached. Keep logging to maintain your trend."
      case NoDownwardTrend(_, _) => NoDownwardYet
      case Projected(_, _, _, _, _) => MovingDown
    }
  }

  const NeedMoreData: string := "Need more data for a reliable projection."
  const MovingDown: string := "Trend is moving down."
  const NoDownwardYet: string := "No downward trend yet — keep logging for a better projection."

  /** The flat result record with nullable fields. */
  datatype ProjectionRecord = ProjectionRecord(
    status: Status,
    weeklyRateKg: Option<real>,
    slopeKgPerDay: Option<real>,
    currentTrendWeight: Option<real>,
    projectedDate: Option<string>,
    daysToTarget: Option<int>,
    confidenceWindow: Option<ConfidenceWindow>,
    insight: string)

  /**
   * The record the application sees. Dates and day counts are present
   * exactly for the two statuses that name a date; a rate is present
   * whenever the status rests on a fitted slope.
   */
  function ToRecord(p: ProjectionResult): (r: ProjectionRecord)
    ensures r.status == p.Status() && r.insight == p.Insight()
    ensures (r.projectedDate.Some? <==> r.status in {TargetReachedStatus, ProjectedStatus})
    ensures (r.daysToTarget.Some? <==> r.status in {TargetReachedStatus, ProjectedStatus})
    ensures (r.weeklyRateKg.Some? <==> r.status != NotEnoughDataStatus)
    ensures (r.slopeKgPerDay.Some? <==> r.status != NotEnoughDataStatus)
    ensures r.confidenceWindow.Some? ==> r.status == ProjectedStatus
    ensures r.currentTrendWeight.None? ==> r.status == NotEnoughDataStatus
  {
    match p
    case NotEnoughData(latest) =>
      ProjectionRecord(NotEnoughDataStatus, None, None, latest, None, None, None, p.Insight())
    case NoTarget(rate, current) =>
      ProjectionRecord(NoTargetStatus, Some(rate.weeklyRateKg), Some(rate.slopeKgPerDay), Some(current), None, None, None, p.Insight())
    case TargetReached(rate, current, date, days) =>
      ProjectionRecord(TargetReachedStatus, Some(rate.weeklyRateKg), Some(rate.slopeKgPerDay), Some(current), Some(date), Some(days), None, p.Insight())
    case NoDownwardTrend(rate, current) =>
      ProjectionRecord(NoDownwardTrendStatus, Some(rate.weeklyRateKg), Some(rate.slopeKgPerDay), Some(current), None, None, None, p.Insight())
    case Projected(rate, current, date, days, window) =>
      ProjectionRecord(ProjectedStatus, Some(rate.weeklyRateKg), Some(rate.slopeKgPerDay), Some(current), Some(date), Some(days), window, p.Insight())
  }
}
