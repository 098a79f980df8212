/**
 * Calendar dates as `YYYY-MM-DD` texts in local time: formatting a local
 * date, parsing a text back into a local `Date`, counting the calendar days
 * between two texts, shifting a text by whole days, and the default weigh
 * time for an hour of the day.
 *
 * A JavaScript `Date` at local midnight is represented by its day number
 * (see `Calendar`); an invalid `Date`, and the NaN that arithmetic on it
 * produces, by `None`.
 */
module Dates {
  import opened Wrappers
  import opened Text
  import opened Calendar
  import opened Models

  /** What `toLocalISODate` prints for an invalid `Date`. */
  const InvalidDateText: string := "NaN-NaN-NaN"

  /** `String(y)` for an integer year. */
  function YearText(y: int): string
  {
    if y < 0 then "-" + Decimal(-y) else Decimal(y)
  }

  /** `${getFullYear()}-${pad(getMonth() + 1)}-${pad(getDate())}`. */
  function FormatLocalDate(d: LocalDate): string
    requires Valid(d)
  {
    Join([YearText(d.fullYear), Pad2(d.monthIndex + 1), Pad2(d.date)], '-')
  }

  /** `toLocalISODate(date)` for the local day numbered `day`. */
  function ToLocalISODate(day: int): (s: string)
    ensures s != [] && s[0] != InvalidDateText[0]
    ensures s[0] == '-' || IsDigit(s[0])
  {
    var d := FromDayNumber(day);
    var y := YearText(d.fullYear);
    JoinThree(y, Pad2(d.monthIndex + 1), Pad2(d.date), '-');
    assert y != [] && (y[0] == '-' || IsDigit(y[0]));
    assert FormatLocalDate(d)[0] == y[0] != InvalidDateText[0];
    FormatLocalDate(d)
  }

  /**
   * `Number(part)` for the texts a date field can hold: the empty text is 0,
   * a run of decimal digits is its value, anything else is NaN.
   */
  function NumberOf(part: string): (n: Option<int>)
    ensures n.Some? ==> n.value >= 0
  {
    if part == [] then Some(0) else if AllDigits(part) then Some(DigitsValue(part)) else None
  }

  /** The `Date` constructor reads a year from 0 to 99 as 1900 to 1999. */
  function ConstructorYear(y: int): int
  {
    if 0 <= y <= 99 then 1900 + y else y
  }

  /**
   * `parseISODateLocal(value)`: split on '-', read three numbers, and build
   * `new Date(y, m - 1, d)`, which carries an out-of-range month or day
   * into the next field. A missing or non-numeric field gives an invalid
   * date.
   */
  function ParseISODateLocal(value: string): (r: Option<int>)
    ensures r.Some? ==> |Split(value, '-')| >= 3
  {
    var parts := Split(value, '-');
    if |parts| < 3 then None
    else
      var y, m, d := NumberOf(parts[0]), NumberOf(parts[1]), NumberOf(parts[2]);
      if y.None? || m.None? || d.None? then None
      else Some(MakeDay(ConstructorYear(y.value), m.value - 1, d.value))
  }

  /** `daysBetween(start, end)`: whole calendar days from `start` to `end`; NaN if either is invalid. */
  function DaysBetween(start: string, end: string): (r: Option<int>)
    ensures r.Some? <==> ParseISODateLocal(start).Some? && ParseISODateLocal(end).Some?
    ensures start == end && r.Some? ==> r.value == 0
  {
    var s, e := ParseISODateLocal(start), ParseISODateLocal(end);
    if s.Some? && e.Some? then Some(e.value - s.value) else None
  }

  /** `addDays(isoDate, days)`: move the parsed date by `days` calendar days and format it. */
  function AddDays(isoDate: string, days: int): (s: string)
    ensures ParseISODateLocal(isoDate).None? ==> s == InvalidDateText
    ensures ParseISODateLocal(isoDate).Some? ==> s != [] && s[0] != InvalidDateText[0]
  {
    var p := ParseISODateLocal(isoDate);
    if p.None? then InvalidDateText else ToLocalISODate(p.value + days)
  }

  /** `inferDefaultWeighTime` for the local hour `hour`. */
  function InferDefaultWeighTime(hour: int): (t: WeighTime)
    requires 0 <= hour < 24
    ensures t == Morning <==> 4 <= hour <= 11
    ensures t == Afternoon <==> 12 <= hour <= 17
    ensures t == Evening <==> hour <= 3 || 18 <= hour
  {
    if 4 <= hour <= 11 then Morning
    else if 12 <= hour <= 17 then Afternoon
    else Evening
  }

  /** From 4 in the morning to midnight the default only moves later in the day. */
  lemma {:induction false} InferDefaultWeighTimeMonotone(h1: int, h2: int)
    requires 4 <= h1 <= h2 < 24
    ensures Rank(InferDefaultWeighTime(h1)) <= Rank(InferDefaultWeighTime(h2))
  {
  }

  // ---------------------------------------------------------------------
  // Canonical date texts
  // ---------------------------------------------------------------------

  /**
   * A text of the form `YYYY-MM-DD` with a four-digit year (no leading
   * zero) naming a day that exists.
   */
  predicate IsISODate(s: string)
  {
    && |s| == 10 && s[4] == '-' && s[7] == '-'
    && AllDigits(s[..4]) && AllDigits(s[5..7]) && AllDigits(s[8..])
    && s[0] != '0'
    && Valid(FieldsOf(s))
  }

  /** The local date a `YYYY-MM-DD` text names. */
  function FieldsOf(s: string): LocalDate
    requires |s| == 10 && AllDigits(s[..4]) && AllDigits(s[5..7]) && AllDigits(s[8..])
  {
    LocalDate(DigitsValue(s[..4]), DigitsValue(s[5..7]) - 1, DigitsValue(s[8..]))
  }

  /** Formatting a date from year 100 on and parsing the text gives the same day. */
  lemma {:induction false} ParseFormat(d: LocalDate)
    requires Valid(d) && d.fullYear >= 100
    ensures ParseISODateLocal(FormatLocalDate(d)) == Some(DayNumber(d))
  {
    var y, m, dd := Decimal(d.fullYear), Pad2(d.monthIndex + 1), Pad2(d.date);
    DecimalValue(d.fullYear);
    Pad2Digits(d.monthIndex + 1);
    Pad2Digits(d.date);
    NoDash(y);
    NoDash(m);
    NoDash(dd);
    SplitJoinThree(y, m, dd, '-');
    MakeDayValid(d);
  }

  lemma {:induction false} NoDash(s: string)
    requires AllDigits(s)
    ensures '-' !in s
  {
  }

  /** Any day number whose year is 100 or later survives formatting and parsing. */
  lemma {:induction false} ParseToLocalISODate(day: int)
    requires FromDayNumber(day).fullYear >= 100
    ensures ParseISODateLocal(ToLocalISODate(day)) == Some(day)
  {
    FromDayNumberNumber(day);
    ParseFormat(FromDayNumber(day));
  }

  /** A canonical text is what formatting its own date prints. */
  lemma {:induction false} FormatFieldsOf(s: string)
    requires IsISODate(s)
    ensures FormatLocalDate(FieldsOf(s)) == s
  {
    var f := FieldsOf(s);
    DecimalOfDigits(s[..4]);
    DigitsPositive(s[..4]);
    Pad2OfDigits(s[5..7]);
    Pad2OfDigits(s[8..]);
    JoinThree(s[..4], s[5..7], s[8..], '-');
    assert s == s[..4] + "-" + s[5..7] + "-" + s[8..];
  }

  /**
   * Parsing a canonical text gives the day it names, and formatting that
   * day prints the text again.
   */
  lemma {:induction false} ISODateRoundTrip(s: string)
    requires IsISODate(s)
    ensures ParseISODateLocal(s) == Some(DayNumber(FieldsOf(s)))
    ensures ToLocalISODate(DayNumber(FieldsOf(s))) == s
  {
    FormatFieldsOf(s);
    Digits4(s[..4]);
    ParseFormat(FieldsOf(s));
    FromDayNumberOf(FieldsOf(s));
  }

  /**
   * `toLocalISODate` of a date in years 1000 to 9999 is canonical: ten
   * characters, '-' at positions 4 and 7, the month shifted to 1-based and
   * month and day padded to two digits.
   */
  lemma {:induction false} FormatIsISODate(d: LocalDate)
    requires Valid(d) && 1000 <= d.fullYear <= 9999
    ensures IsISODate(FormatLocalDate(d))
    ensures FieldsOf(FormatLocalDate(d)) == d
    ensures DigitsValue(FormatLocalDate(d)[5..7]) == d.monthIndex + 1
  {
    var s := FormatLocalDate(d);
    var y := Decimal(d.fullYear);
    DecimalValue(d.fullYear);
    DecimalLength4(d.fullYear);
    JoinThree(y, Pad2(d.monthIndex + 1), Pad2(d.date), '-');
    Pad2Digits(d.monthIndex + 1);
    Pad2Digits(d.date);
    assert s[..4] == y;
    assert s[5..7] == Pad2(d.monthIndex + 1);
    assert s[8..] == Pad2(d.date);
  }

  /** Four digits without a leading zero make a number from 1000 to 9999. */
  lemma {:induction false} Digits4(t: string)
    requires |t| == 4 && AllDigits(t) && t[0] != '0'
    ensures 1000 <= DigitsValue(t) <= 9999
  {
    assert t[..3][..2] == t[..2] && t[..2][..1] == t[..1] && t[..1][..0] == [];
    assert DigitsValue(t[..1]) == DigitValue(t[0]);
    assert DigitsValue(t[..2]) == 10 * DigitValue(t[0]) + DigitValue(t[1]);
    assert DigitsValue(t[..3]) == 100 * DigitValue(t[0]) + 10 * DigitValue(t[1]) + DigitValue(t[2]);
    assert DigitValue(t[0]) >= 1;
  }

  lemma {:induction false} DecimalLength4(n: nat)
    requires 1000 <= n <= 9999
    ensures |Decimal(n)| == 4 && Decimal(n)[0] != '0'
  {
    assert Decimal(n) == Decimal(n / 10) + [DigitChar(n % 10)];
    assert Decimal(n / 10) == Decimal(n / 100) + [DigitChar(n / 10 % 10)];
    assert Decimal(n / 100) == Decimal(n / 1000) + [DigitChar(n / 100 % 10)];
  }

  // ---------------------------------------------------------------------
  // Day arithmetic
  // ---------------------------------------------------------------------

  lemma {:induction false} DaysBetweenSelf(a: string)
    ensures DaysBetween(a, a) == if ParseISODateLocal(a).Some? then Some(0) else None
  {
  }

  lemma {:induction false} DaysBetweenAntisymmetric(a: string, b: string)
    requires DaysBetween(a, b).Some?
    ensures DaysBetween(b, a) == Some(-DaysBetween(a, b).value)
  {
  }

  lemma {:induction false} DaysBetweenAdditive(a: string, b: string, c: string)
    requires DaysBetween(a, b).Some? && DaysBetween(b, c).Some?
    ensures DaysBetween(a, c) == Some(DaysBetween(a, b).value + DaysBetween(b, c).value)
  {
  }

  /** Shifting by `n` days moves the date exactly `n` days on. */
  lemma {:induction false} DaysBetweenAddDays(a: string, n: int)
    requires ParseISODateLocal(a).Some?
    requires FromDayNumber(ParseISODateLocal(a).value + n).fullYear >= 100
    ensures DaysBetween(a, AddDays(a, n)) == Some(n)
  {
    var day := ParseISODateLocal(a).value;
    AddDaysOf(a, n, day);
    ParseToLocalISODate(day + n);
    DaysBetweenOf(a, AddDays(a, n), day, day + n);
  }

  lemma {:induction false} AddDaysOf(a: string, n: int, day: int)
    requires ParseISODateLocal(a) == Some(day)
    ensures AddDays(a, n) == ToLocalISODate(day + n)
  {
  }



  /** Shifting a canonical text by no days leaves it as it is. */
  lemma {:induction false} AddDaysZero(a: string)
    requires IsISODate(a)
    ensures AddDays(a, 0) == a
  {
    ISODateRoundTrip(a);
  }

  /**
   * Two shifts make one. The intermediate date has to be in year 100 or
   * later, where its text reads back as the same day.
   */
  lemma {:induction false} AddDaysAddDays(a: string, m: int, n: int)
    requires ParseISODateLocal(a).Some? ==> FromDayNumber(ParseISODateLocal(a).value + m).fullYear >= 100
    ensures AddDays(AddDays(a, m), n) == AddDays(a, m + n)
  {
    if ParseISODateLocal(a).None? {
      AddDaysInvalid(a, m, n);
    } else {
      var day := ParseISODateLocal(a).value;
      var shifted := AddDays(a, m);
      AddDaysReadable(a, m, day);
      AddDaysTwice(a, shifted, m, n, day);
    }
  }

  /** An unreadable text stays "NaN-NaN-NaN" however often it is shifted. */
  lemma {:induction false} AddDaysInvalid(a: string, m: int, n: int)
    requires ParseISODateLocal(a).None?
    ensures AddDays(AddDays(a, m), n) == AddDays(a, m + n)
  {
    var shifted := AddDays(a, m);
    assert shifted == InvalidDateText;
    InvalidDateUnreadable();
    assert AddDays(shifted, n) == InvalidDateText;
  }

  /** Shifting the text of day `day` by `m` days, into year 100 or later, gives a text that reads back as day `day + m`. */
  lemma {:induction false} AddDaysReadable(a: string, m: int, day: int)
    requires ParseISODateLocal(a) == Some(day)
    requires FromDayNumber(day + m).fullYear >= 100
    ensures ParseISODateLocal(AddDays(a, m)) == Some(day + m)
  {
    AddDaysOf(a, m, day);
    ParseToLocalISODate(day + m);
  }

  /** When `a` reads as day `day` and `b` as day `day + m`, shifting `b` by `n` days is shifting `a` by `m + n`. */
  lemma {:induction false} AddDaysTwice(a: string, b: string, m: int, n: int, day: int)
    requires ParseISODateLocal(a) == Some(day)
    requires ParseISODateLocal(b) == Some(day + m)
    ensures AddDays(b, n) == AddDays(a, m + n)
  {
    AddDaysOf(b, n, day + m);
    assert AddDays(b, n) == ToLocalISODate(day + (m + n));
    AddDaysOf(a, m + n, day);
  }

  /** Shifting the text of day `x` by `n` days gives the text of day `x + n`. */
  lemma {:induction false} AddDaysToLocalISODate(x: int, n: int)
    requires FromDayNumber(x).fullYear >= 100
    ensures AddDays(ToLocalISODate(x), n) == ToLocalISODate(x + n)
  {
    ParseToLocalISODate(x);
    AddDaysOf(ToLocalISODate(x), n, x);
  }

  /** The text printed for an invalid date does not parse. */
  lemma {:induction false} InvalidDateUnreadable()
    ensures ParseISODateLocal(InvalidDateText).None?
  {
    assert Split(InvalidDateText, '-') == ["NaN", "NaN", "NaN"] by {
      SplitJoinThree("NaN", "NaN", "NaN", '-');
      JoinThree("NaN", "NaN", "NaN", '-');
      assert InvalidDateText == "NaN" + ['-'] + "NaN" + ['-'] + "NaN";
    }
    assert !AllDigits("NaN") by { assert !IsDigit("NaN"[0]); }
  }

  /** A canonical date that does not sort after another is no later than it. */
  lemma {:induction false} ISODateLe(a: string, b: string)
    requires IsISODate(a) && IsISODate(b) && LexLe(a, b)
    ensures DaysBetween(a, b).Some? && DaysBetween(a, b).value >= 0
  {
    LexLessTrichotomy(a, b);
    ISODateOrder(a, b);
  }

  /**
   * For canonical texts, the string order the entries are sorted by is the
   * calendar order: `a` sorts before `b` exactly when it is an earlier day.
   */
  lemma {:induction false} ISODateOrder(a: string, b: string)
    requires IsISODate(a) && IsISODate(b)
    ensures DaysBetween(a, b).Some?
    ensures LexLess(a, b) <==> DaysBetween(a, b).value > 0
    ensures a == b <==> DaysBetween(a, b).value == 0
  {
    var fa, fb := FieldsOf(a), FieldsOf(b);
    ISODateRoundTrip(a);
    ISODateRoundTrip(b);
    DaysBetweenOf(a, b, DayNumber(fa), DayNumber(fb));
    LexLessISODate(a, b);
    DayNumberOrder(fa, fb);
    if fa == fb {
      FormatFieldsOf(a);
      FormatFieldsOf(b);
    } else if DayNumber(fa) == DayNumber(fb) {
      DayNumberInjective(fa, fb);
    }
  }

  lemma {:induction false} DaysBetweenOf(a: string, b: string, x: int, y: int)
    requires ParseISODateLocal(a) == Some(x) && ParseISODateLocal(b) == Some(y)
    ensures DaysBetween(a, b) == Some(y - x)
  {
  }

  /** On canonical texts the string order is the field order. */
  lemma {:induction false} LexLessISODate(a: string, b: string)
    requires IsISODate(a) && IsISODate(b)
    ensures LexLess(a, b) <==> Before(FieldsOf(a), FieldsOf(b))
  {
    LexLessDigits(a[..4], b[..4]);
    LexLessDigits(a[5..7], b[5..7]);
    LexLessDigits(a[8..], b[8..]);
    LexLessConcat(a[..4], a[4..], b[..4], b[4..]);
    assert a == a[..4] + a[4..] && b == b[..4] + b[4..];
    assert a[4..][1..] == a[5..] && b[4..][1..] == b[5..];
    LexLessConcat(a[5..7], a[7..], b[5..7], b[7..]);
    assert a[5..] == a[5..7] + a[7..] && b[5..] == b[5..7] + b[7..];
    assert a[7..][1..] == a[8..] && b[7..][1..] == b[8..];
  }

  // ---------------------------------------------------------------------
  // Shifts across the ends of months and years
  // ---------------------------------------------------------------------

  /**
   * `setDate(getDate() + n)` walks `n` days through the calendar: shifting
   * the text of a date from year 100 on gives the text of the date `n`
   * days later, across month and year ends alike.
   */
  lemma {:induction false} AddDaysShift(d: LocalDate, n: int)
    requires Valid(d) && d.fullYear >= 100
    ensures AddDays(FormatLocalDate(d), n) == FormatLocalDate(Shift(d, n))
  {
    ParseFormat(d);
    AddDaysOf(FormatLocalDate(d), n, DayNumber(d));
    ShiftNumber(d, n);
    FromDayNumberOf(Shift(d, n));
  }

  /** The last day of a year is followed by the first of the next. */
  lemma {:induction false} AddOneDayYearEnd(y: int)
    requires y >= 100
    ensures AddDays(FormatLocalDate(LocalDate(y, 11, 31)), 1) == FormatLocalDate(LocalDate(y + 1, 0, 1))
  {
    var d := LocalDate(y, 11, 31);
    assert Shift(d, 1) == Shift(NextDay(d), 0) == LocalDate(y + 1, 0, 1);
    AddDaysShift(d, 1);
  }

  /** 28 February is followed by 29 February in a leap year and by 1 March otherwise. */
  lemma {:induction false} AddOneDayFebruary(y: int)
    requires y >= 100
    ensures AddDays(FormatLocalDate(LocalDate(y, 1, 28)), 1)
         == FormatLocalDate(if IsLeapYear(y) then LocalDate(y, 1, 29) else LocalDate(y, 2, 1))
  {
    var d := LocalDate(y, 1, 28);
    assert Shift(d, 1) == Shift(NextDay(d), 0) == NextDay(d);
    AddDaysShift(d, 1);
  }
}
