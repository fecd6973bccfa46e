/**
 MySQL's DATE_FORMAT for the four formats the revenue report groups by,
 applied to a DATE column read as its 'Y-m-d' text. `%u` is the week of the
 year, 00 to 53, weeks starting on Monday and week 1 being the first week
 with four or more days in the year (MySQL's week mode 1). A value that is
 not a date formats to NULL.
 */
module MysqlDates {
  import opened Php
  import opened Text
  import opened Wrappers
  import opened Dates

  const DAY_FORMAT: string := "%Y-%m-%d"
  const WEEK_FORMAT: string := "%Y-%u"
  const MONTH_FORMAT: string := "%Y-%m"
  const YEAR_FORMAT: string := "%Y"

  /** The formats the model knows. */
  predicate KnownFormat(format: string) {
    format == DAY_FORMAT || format == WEEK_FORMAT || format == MONTH_FORMAT || format == YEAR_FORMAT
  }

  /** The number of days in the months of year `y` before month `m`. */
  function DaysBefore(y: int, m: int): (n: int)
    requires 1 <= m <= 12
    ensures 0 <= n <= 335
  {
    var cumulative := [0, 31, 59, 90, 120, 151, 181, 212, 243, 273, 304, 334];
    cumulative[m - 1] + (if m > 2 && IsLeap(y) then 1 else 0)
  }

  /** Each month starts where the one before it ends, and the twelve months make a year of 365 or 366 days. */
  lemma DaysBeforeSteps(y: int, m: int)
    requires 1 <= m <= 12
    ensures m < 12 ==> DaysBefore(y, m + 1) == DaysBefore(y, m) + DaysInMonth(y, m)
    ensures m == 12 ==> DaysBefore(y, m) + DaysInMonth(y, m) == if IsLeap(y) then 366 else 365
  {
  }

  /** The day of the year, 1 January being day 0. */
  function DayOfYear(d: Date): (n: int)
    requires Proper(d)
    ensures 0 <= n <= 365
    ensures n == 365 ==> IsLeap(d.year)
  {
    DaysBefore(d.year, d.month) + d.day - 1
  }

  /** The weekday of 1 January of year `y` in the proleptic Gregorian calendar, Monday being 0. */
  function NewYearWeekday(y: int): (w: int)
    ensures 0 <= w < 7
  {
    DaysBeforeYear(y) % 7
  }

  /** Going from year `y - 1` to `y`, the count of leap-rule multiples up to it steps up exactly at a multiple. */
  lemma LeapRuleSteps(y: int)
    ensures y / 4 == (y - 1) / 4 + if y % 4 == 0 then 1 else 0
    ensures y / 100 == (y - 1) / 100 + if y % 100 == 0 then 1 else 0
    ensures y / 400 == (y - 1) / 400 + if y % 400 == 0 then 1 else 0
  {
  }

  /** Moving on by `e` days and 52 whole weeks moves the weekday on by `e`. */
  lemma WeekdayShift(a: int, e: int)
    ensures (a + e + 364) % 7 == (a % 7 + e) % 7
  {
    var q := a / 7;
    assert a == 7 * q + a % 7;
    assert a + e + 364 == 7 * (q + 52) + (a % 7 + e);
  }

  /** The days before 1 January, as NewYearWeekday counts them. */
  function DaysBeforeYear(y: int): int {
    var p := y - 1;
    365 * p + p / 4 - p / 100 + p / 400
  }

  /** A year adds 365 days, one more when it is a leap year. */
  lemma YearLength(y: int)
    ensures DaysBeforeYear(y + 1) == DaysBeforeYear(y) + (if IsLeap(y) then 2 else 1) + 364
  {
    LeapRuleSteps(y);
  }

  /** 1 January moves on by the length of the year before it: one weekday after a common year, two after a leap year. */
  lemma NewYearAdvances(y: int)
    ensures NewYearWeekday(y + 1) == (NewYearWeekday(y) + if IsLeap(y) then 2 else 1) % 7
  {
    YearLength(y);
    WeekdayShift(DaysBeforeYear(y), if IsLeap(y) then 2 else 1);
  }

  /** The calendar anchor: 1 January 2024 was a Monday and 1 January 2023 a Sunday. */
  lemma NewYearAnchors()
    ensures NewYearWeekday(2024) == 0 && NewYearWeekday(2023) == 6
  {
  }

  /** The weekday of a date, Monday being 0. */
  function Weekday(d: Date): (w: int)
    requires Proper(d)
    ensures 0 <= w < 7
  {
    (NewYearWeekday(d.year) + DayOfYear(d)) % 7
  }

  /** `%u`: the week of the year, 0 to 53. */
  function WeekOfYear(d: Date): (w: int)
    requires Proper(d)
    ensures 0 <= w <= 53
  {
    var first := NewYearWeekday(d.year);
    (DayOfYear(d) + first) / 7 + (if first <= 3 then 1 else 0)
  }

  /**
   1 January is in week 1 exactly when it falls on Monday to Thursday, so
   that four or more days of its week lie in the year, and in week 0
   otherwise; from one day of a year to the next the week number goes up
   by one exactly when the next day is a Monday.
   */
  lemma WeeksStartOnMonday(d: Date, next: Date)
    requires Proper(d) && Proper(next) && next.year == d.year && DayOfYear(next) == DayOfYear(d) + 1
    ensures WeekOfYear(Date(d.year, 1, 1)) == if NewYearWeekday(d.year) <= 3 then 1 else 0
    ensures WeekOfYear(next) == WeekOfYear(d) + if Weekday(next) == 0 then 1 else 0
  {
    var a := DayOfYear(d) + NewYearWeekday(d.year);
    assert (a + 1) / 7 == a / 7 + if (a + 1) % 7 == 0 then 1 else 0;
  }

  /** Two-digit text of a number below 100. */
  function Pad2(n: int): (s: string)
    requires 0 <= n < 100
    ensures |s| == 2 && AllDigits(s) && DigitsValue(s) == n
  {
    assert Pow10(2) == 100;
    PadFits(n, 2);
    PadDecimal(n, 2)
  }

  /** DATE_FORMAT(v, format): the parts of the date `v` spells that the format names, or NULL when `v` is not a date. */
  function DateFormat(v: Val, format: string): (r: Val)
    requires KnownFormat(format)
    ensures r.Null? || r.Str?
    ensures r.Null? <==> !(v.Str? && IsValidDate(v.s))
  {
    if v.Str? && IsValidDate(v.s) then
      var d := DateOf(v.s);
      if format == DAY_FORMAT then Str(Format(d))
      else if format == WEEK_FORMAT then Str(YearText(d.year) + "-" + Pad2(WeekOfYear(d)))
      else if format == MONTH_FORMAT then Str(YearText(d.year) + "-" + TwoDigits(d.month))
      else Str(YearText(d.year))
    else Null
  }

  /** The `Y-m-d` text of an in-range date starts with its year and its month. */
  lemma FormatPrefixes(d: Date)
    requires InRange(d)
    ensures Format(d)[..4] == YearText(d.year)
    ensures Format(d)[..7] == YearText(d.year) + "-" + TwoDigits(d.month)
    ensures Format(d)[4] == '-'
  {
    var ys := YearText(d.year);
    assert |ys| == 4;
    var s := Format(d);
    assert s == (ys + "-" + TwoDigits(d.month)) + ("-" + TwoDigits(d.day));
  }

  /**
   The periods of a date are prefixes of its text: the day is the date
   itself, the month its first seven characters, the year its first four,
   and the week its year, a dash and two digits.
   */
  lemma PeriodsArePrefixes(s: string)
    requires IsValidDate(s)
    ensures DateFormat(Str(s), DAY_FORMAT) == Str(s)
    ensures DateFormat(Str(s), MONTH_FORMAT) == Str(s[..7])
    ensures DateFormat(Str(s), YEAR_FORMAT) == Str(s[..4])
    ensures var w := DateFormat(Str(s), WEEK_FORMAT).s;
            |w| == 7 && w[..5] == s[..5] && AllDigits(w[5..])
  {
    var d := DateOf(s);
    FormatPrefixes(d);
    var ys := YearText(d.year);
    assert s[..5] == ys + "-" by {
      assert s[..5] == s[..4] + [s[4]];
    }
    var w := ys + "-" + Pad2(WeekOfYear(d));
    assert w[..5] == ys + "-";
    assert w[5..] == Pad2(WeekOfYear(d));
  }

  /**
   DATE_SUB(d, INTERVAL n MONTH): the date `n` months earlier (later for a
   negative `n`), its day cut back to the last day of a shorter month; NULL
   (None) when the result falls outside the years 0 to 9999.
   */
  function DateSubMonths(d: Date, n: int): (r: Option<Date>)
    requires InRange(d)
    ensures r.None? <==> !(0 <= d.year * 12 + d.month - 1 - n < 120000)
    ensures r.Some? ==> InRange(r.value) && r.value.year * 12 + r.value.month == d.year * 12 + d.month - n
    ensures r.Some? ==> r.value.day <= d.day && (r.value.day < d.day ==> r.value.day == DaysInMonth(r.value.year, r.value.month))
  {
    var total := d.year * 12 + d.month - 1 - n;
    if 0 <= total < 120000 then
      var y, m := total / 12, total % 12 + 1;
      var last := DaysInMonth(y, m);
      Some(Date(y, m, if d.day <= last then d.day else last))
    else None
  }

  /** Going back no months is the date itself. */
  lemma DateSubNothing(d: Date)
    requires InRange(d)
    ensures DateSubMonths(d, 0) == Some(d)
  {
  }

  /** Going back a number of months never lands after the date, and going back at least one lands before it. */
  lemma DateSubGoesBack(d: Date, n: int)
    requires InRange(d) && n >= 0 && DateSubMonths(d, n).Some?
    ensures !Before(d, DateSubMonths(d, n).value)
    ensures n > 0 ==> Before(DateSubMonths(d, n).value, d)
  {
  }
}
