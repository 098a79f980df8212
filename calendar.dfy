/**
 * The proleptic Gregorian calendar as a JavaScript `Date` sees a local
 * day: the fields `getFullYear()`, `getMonth()` (0-based) and `getDate()`,
 * and the running day number that local-midnight dates differ by.
 * Day 0 is 0000-01-01.
 */
module Calendar {

  /** A local calendar day, as the three `Date` getters report it. */
  datatype LocalDate = LocalDate(fullYear: int, monthIndex: int, date: int)

  predicate IsLeapYear(y: int)
  {
    y % 4 == 0 && (y % 100 != 0 || y % 400 == 0)
  }

  function YearLength(y: int): int
  {
    if IsLeapYear(y) then 366 else 365
  }

  function DaysInMonth(y: int, monthIndex: int): (n: int)
    requires 0 <= monthIndex < 12
    ensures 28 <= n <= 31
    ensures n == 29 <==> monthIndex == 1 && IsLeapYear(y)
  {
    if monthIndex == 1 then (if IsLeapYear(y) then 29 else 28)
    else if monthIndex in {3, 5, 8, 10} then 30
    else 31
  }

  /** The fields name a day that exists. */
  predicate Valid(d: LocalDate)
  {
    0 <= d.monthIndex < 12 && 1 <= d.date <= DaysInMonth(d.fullYear, d.monthIndex)
  }

  /** Days from 0000-01-01 to the first of January of year `y`, counted a year at a time. */
  function DaysBeforeYear(y: int): int
    decreases if y >= 0 then y else -y
  {
    if y == 0 then 0
    else if y > 0 then DaysBeforeYear(y - 1) + YearLength(y - 1)
    else DaysBeforeYear(y + 1) - YearLength(y)
  }

  /** Days from the first of January of year `y` to the first of month `monthIndex`. */
  function DaysBeforeMonth(y: int, monthIndex: int): int
    requires 0 <= monthIndex < 12
  {
    [0, 31, 59, 90, 120, 151, 181, 212, 243, 273, 304, 334][monthIndex]
    + (if monthIndex >= 2 && IsLeapYear(y) then 1 else 0)
  }

  /** The running day number of a valid local date. */
  function DayNumber(d: LocalDate): int
    requires Valid(d)
  {
    DaysBeforeYear(d.fullYear) + DaysBeforeMonth(d.fullYear, d.monthIndex) + d.date - 1
  }

  /**
   * The day number of `new Date(year, monthIndex, date)` for any integer
   * fields: a month index outside 0..11 carries whole years into the year,
   * and the date counts on (or back) from the first of the resulting month.
   */
  function MakeDay(year: int, monthIndex: int, date: int): int
    decreases if monthIndex < 0 then 12 - monthIndex else monthIndex
  {
    if monthIndex < 0 then MakeDay(year - 1, monthIndex + 12, date)
    else if monthIndex >= 12 then MakeDay(year + 1, monthIndex - 12, date)
    else DaysBeforeYear(year) + DaysBeforeMonth(year, monthIndex) + date - 1
  }

  /** For fields that name a real day, `MakeDay` is that day's number. */
  lemma {:induction false} MakeDayValid(d: LocalDate)
    requires Valid(d)
    ensures MakeDay(d.fullYear, d.monthIndex, d.date) == DayNumber(d)
  {
  }

  /**
   * `MakeDay` agrees with the ECMAScript formulation, which carries
   * floor(monthIndex / 12) years and keeps monthIndex modulo 12.
   */
  lemma {:induction false} MakeDayCarry(year: int, monthIndex: int, date: int)
    ensures MakeDay(year, monthIndex, date)
         == DaysBeforeYear(year + monthIndex / 12) + DaysBeforeMonth(year + monthIndex / 12, monthIndex % 12) + date - 1
    decreases if monthIndex < 0 then 12 - monthIndex else monthIndex
  {
    if monthIndex < 0 {
      MakeDayCarry(year - 1, monthIndex + 12, date);
      assert (monthIndex + 12) / 12 == monthIndex / 12 + 1;
      assert (monthIndex + 12) % 12 == monthIndex % 12;
    } else if monthIndex >= 12 {
      MakeDayCarry(year + 1, monthIndex - 12, date);
      assert (monthIndex - 12) / 12 == monthIndex / 12 - 1;
      assert (monthIndex - 12) % 12 == monthIndex % 12;
    }
  }

  /** One year later is exactly one year's length of days later. */
  lemma {:induction false} YearStep(y: int)
    ensures DaysBeforeYear(y + 1) == DaysBeforeYear(y) + YearLength(y)
  {
  }

  lemma {:induction false} YearMonotone(a: int, b: int)
    requires a <= b
    ensures DaysBeforeYear(a) <= DaysBeforeYear(b)
    ensures a < b ==> DaysBeforeYear(a) + YearLength(a) <= DaysBeforeYear(b)
    decreases b - a
  {
    if a < b {
      YearStep(a);
      YearMonotone(a + 1, b);
    }
  }

  lemma {:induction false} MonthStep(y: int, monthIndex: int)
    requires 0 <= monthIndex < 12
    ensures monthIndex < 11 ==> DaysBeforeMonth(y, monthIndex + 1) == DaysBeforeMonth(y, monthIndex) + DaysInMonth(y, monthIndex)
    ensures monthIndex == 11 ==> DaysBeforeMonth(y, monthIndex) + DaysInMonth(y, monthIndex) == YearLength(y)
  {
  }

  lemma {:induction false} MonthMonotone(y: int, i: int, j: int)
    requires 0 <= i < j < 12
    ensures DaysBeforeMonth(y, i) + DaysInMonth(y, i) <= DaysBeforeMonth(y, j)
  {
  }

  /** Strict order of dates, field by field. */
  predicate Before(d: LocalDate, e: LocalDate)
  {
    d.fullYear < e.fullYear
    || (d.fullYear == e.fullYear && d.monthIndex < e.monthIndex)
    || (d.fullYear == e.fullYear && d.monthIndex == e.monthIndex && d.date < e.date)
  }

  /** Later dates have larger day numbers. */
  lemma {:induction false} DayNumberMonotone(d: LocalDate, e: LocalDate)
    requires Valid(d) && Valid(e) && Before(d, e)
    ensures DayNumber(d) < DayNumber(e)
  {
    MonthStep(d.fullYear, 11);
    if d.monthIndex < 11 {
      MonthMonotone(d.fullYear, d.monthIndex, 11);
    }
    if d.fullYear < e.fullYear {
      YearMonotone(d.fullYear, e.fullYear);
    } else if d.monthIndex < e.monthIndex {
      MonthMonotone(d.fullYear, d.monthIndex, e.monthIndex);
    }
  }

  /** Different valid dates have different day numbers. */
  lemma {:induction false} DayNumberInjective(d: LocalDate, e: LocalDate)
    requires Valid(d) && Valid(e) && DayNumber(d) == DayNumber(e)
    ensures d == e
  {
    if Before(d, e) {
      DayNumberMonotone(d, e);
    } else if Before(e, d) {
      DayNumberMonotone(e, d);
    }
  }

  /** Day order and field order agree. */
  lemma {:induction false} DayNumberOrder(d: LocalDate, e: LocalDate)
    requires Valid(d) && Valid(e)
    ensures DayNumber(d) < DayNumber(e) <==> Before(d, e)
  {
    if Before(d, e) {
      DayNumberMonotone(d, e);
    } else if Before(e, d) {
      DayNumberMonotone(e, d);
    }
  }

  /** The day after a valid date. */
  function NextDay(d: LocalDate): (r: LocalDate)
    requires Valid(d)
    ensures Valid(r)
  {
    if d.date < DaysInMonth(d.fullYear, d.monthIndex) then LocalDate(d.fullYear, d.monthIndex, d.date + 1)
    else if d.monthIndex < 11 then LocalDate(d.fullYear, d.monthIndex + 1, 1)
    else LocalDate(d.fullYear + 1, 0, 1)
  }

  /** The day before a valid date. */
  function PrevDay(d: LocalDate): (r: LocalDate)
    requires Valid(d)
    ensures Valid(r)
  {
    if d.date > 1 then LocalDate(d.fullYear, d.monthIndex, d.date - 1)
    else if d.monthIndex > 0 then LocalDate(d.fullYear, d.monthIndex - 1, DaysInMonth(d.fullYear, d.monthIndex - 1))
    else LocalDate(d.fullYear - 1, 11, 31)
  }

  /** The next day is numbered one more, across month and year ends alike. */
  lemma {:induction false} NextDayNumber(d: LocalDate)
    requires Valid(d)
    ensures DayNumber(NextDay(d)) == DayNumber(d) + 1
  {
    MonthStep(d.fullYear, d.monthIndex);
    YearStep(d.fullYear);
  }

  /** The previous day is numbered one less, across month and year ends alike. */
  lemma {:induction false} PrevDayNumber(d: LocalDate)
    requires Valid(d)
    ensures DayNumber(PrevDay(d)) == DayNumber(d) - 1
  {
    if d.date == 1 {
      if d.monthIndex > 0 {
        MonthStep(d.fullYear, d.monthIndex - 1);
      } else {
        MonthStep(d.fullYear - 1, 11);
        YearStep(d.fullYear - 1);
      }
    }
  }

  /** The date `n` days after `d` (before it when `n` is negative), one day at a time. */
  function Shift(d: LocalDate, n: int): (r: LocalDate)
    requires Valid(d)
    ensures Valid(r)
    decreases if n >= 0 then n else -n
  {
    if n == 0 then d
    else if n > 0 then Shift(NextDay(d), n - 1)
    else Shift(PrevDay(d), n + 1)
  }

  /** Shifting by `n` days adds `n` to the day number. */
  lemma {:induction false} ShiftNumber(d: LocalDate, n: int)
    requires Valid(d)
    ensures DayNumber(Shift(d, n)) == DayNumber(d) + n
    decreases if n >= 0 then n else -n
  {
    if n > 0 {
      NextDayNumber(d);
      ShiftNumber(NextDay(d), n - 1);
    } else if n < 0 {
      PrevDayNumber(d);
      ShiftNumber(PrevDay(d), n + 1);
    }
  }

  /** The local date whose day number is `n`, counted a year and then a month at a time. */
  function FromDayNumber(n: int): (r: LocalDate)
    ensures Valid(r)
  {
    DateInYear(0, n)
  }

  /** The date `k` days after the first of January of year `y` (before it when `k` is negative). */
  function DateInYear(y: int, k: int): (r: LocalDate)
    ensures Valid(r)
    decreases if k < 0 then 400 - k else k
  {
    if k < 0 then DateInYear(y - 1, k + YearLength(y - 1))
    else if k >= YearLength(y) then DateInYear(y + 1, k - YearLength(y))
    else DateInMonth(y, 0, k)
  }

  /** The date `k` days after the first of month `monthIndex`, within year `y`. */
  function DateInMonth(y: int, monthIndex: int, k: int): (r: LocalDate)
    requires 0 <= monthIndex < 12 && 0 <= k < YearLength(y) - DaysBeforeMonth(y, monthIndex)
    ensures Valid(r)
    decreases 12 - monthIndex
  {
    if k < DaysInMonth(y, monthIndex) || monthIndex == 11 then LocalDate(y, monthIndex, k + 1)
    else DateInMonth(y, monthIndex + 1, k - DaysInMonth(y, monthIndex))
  }

  lemma {:induction false} DateInMonthNumber(y: int, monthIndex: int, k: int)
    requires 0 <= monthIndex < 12 && 0 <= k < YearLength(y) - DaysBeforeMonth(y, monthIndex)
    ensures DayNumber(DateInMonth(y, monthIndex, k)) == DaysBeforeYear(y) + DaysBeforeMonth(y, monthIndex) + k
    decreases 12 - monthIndex
  {
    MonthStep(y, monthIndex);
    if !(k < DaysInMonth(y, monthIndex) || monthIndex == 11) {
      DateInMonthNumber(y, monthIndex + 1, k - DaysInMonth(y, monthIndex));
    }
  }

  lemma {:induction false} DateInYearNumber(y: int, k: int)
    ensures DayNumber(DateInYear(y, k)) == DaysBeforeYear(y) + k
    decreases if k < 0 then 400 - k else k
  {
    if k < 0 {
      YearStep(y - 1);
      DateInYearNumber(y - 1, k + YearLength(y - 1));
    } else if k >= YearLength(y) {
      YearStep(y);
      DateInYearNumber(y + 1, k - YearLength(y));
    } else {
      DateInMonthNumber(y, 0, k);
    }
  }

  /** `FromDayNumber` inverts `DayNumber` one way ... */
  lemma {:induction false} FromDayNumberNumber(n: int)
    ensures DayNumber(FromDayNumber(n)) == n
  {
    DateInYearNumber(0, n);
  }

  /** ... and the other: going to a day number and back returns the same date. */
  lemma {:induction false} FromDayNumberOf(d: LocalDate)
    requires Valid(d)
    ensures FromDayNumber(DayNumber(d)) == d
  {
    FromDayNumberNumber(DayNumber(d));
    DayNumberInjective(FromDayNumber(DayNumber(d)), d);
  }
}
