/**
 Calendar dates as the application spells them: PHP's `Y-m-d`, the strict
 check `DateTime::createFromFormat('Y-m-d', $s)->format('Y-m-d') === $s`,
 the first and last day of a month (`Y-m-01`, `Y-m-t`), and the compact
 `Ymd` and `Y/m/` spellings. The proleptic Gregorian calendar throughout.
 */
module Dates {
  import opened Text
  import opened Wrappers

  datatype Date = Date(year: int, month: int, day: int)

  predicate IsLeap(y: int) { (y % 4 == 0 && y % 100 != 0) || y % 400 == 0 }

  function DaysInMonth(y: int, m: int): (n: int)
    requires 1 <= m <= 12
    ensures 28 <= n <= 31
    ensures m == 2 ==> (n == 29 <==> IsLeap(y))
  {
    if m == 2 then (if IsLeap(y) then 29 else 28)
    else if m == 4 || m == 6 || m == 9 || m == 11 then 30
    else 31
  }

  /** A day that exists: month 1 to 12 and day 1 to the month's length. */
  predicate Proper(d: Date) {
    1 <= d.month <= 12 && 1 <= d.day <= DaysInMonth(d.year, d.month)
  }

  /** A proper date whose year has at most four digits, the ones `Y-m-d` round-trips. */
  predicate InRange(d: Date) {
    Proper(d) && 0 <= d.year <= 9999
  }

  /** 10^k. */
  function Pow10(k: nat): (p: nat)
    ensures p >= 1
  {
    if k == 0 then 1 else 10 * Pow10(k - 1)
  }

  /** A number below 10^k has at most k decimal digits. */
  lemma {:induction false} DecimalShort(n: nat, k: nat)
    requires k >= 1 && n < Pow10(k)
    ensures |NatToDecimal(n)| <= k
  {
    if n >= 10 {
      DecimalShort(n / 10, k - 1);
    }
  }

  /** A number of at least 10^k has more than k decimal digits. */
  lemma {:induction false} DecimalLong(n: nat, k: nat)
    requires n >= Pow10(k)
    ensures |NatToDecimal(n)| > k
  {
    if k > 0 {
      DecimalLong(n / 10, k - 1);
    }
  }

  /** `n` in exactly `width` digits, for a number that fits. */
  lemma PadFits(n: nat, width: nat)
    requires width >= 1 && n < Pow10(width)
    ensures |PadDecimal(n, width)| == width
  {
    DecimalShort(n, width);
  }

  /** PHP's `Y`: at least four digits, a minus sign before a year before 0. */
  function YearText(y: int): (s: string)
    ensures 0 <= y < 10000 ==> |s| == 4 && AllDigits(s) && DigitsValue(s) == y
    ensures y >= 10000 ==> |s| > 4 && AllDigits(s)
    ensures y < 0 ==> |s| > 0 && s[0] == '-'
  {
    if y >= 0 then
      (if y < 10000 then assert Pow10(4) == 10000; PadFits(y, 4); PadDecimal(y, 4)
       else assert Pow10(4) == 10000; DecimalLong(y, 4); PadDecimal(y, 4))
    else "-" + PadDecimal(-y, 4)
  }

  /** PHP's `m` and `d`: two digits. */
  function TwoDigits(n: int): (s: string)
    requires 1 <= n <= 31
    ensures |s| == 2 && AllDigits(s) && DigitsValue(s) == n
  {
    assert Pow10(2) == 100;
    PadFits(n, 2);
    PadDecimal(n, 2)
  }

  /** `format('Y-m-d')`. */
  function Format(d: Date): (s: string)
    requires Proper(d)
    ensures InRange(d) ==> |s| == 10
  {
    YearText(d.year) + "-" + TwoDigits(d.month) + "-" + TwoDigits(d.day)
  }

  /** `date('Ymd')`. */
  function Compact(d: Date): (s: string)
    requires Proper(d)
    ensures InRange(d) ==> |s| == 8 && AllDigits(s)
  {
    YearText(d.year) + TwoDigits(d.month) + TwoDigits(d.day)
  }

  /** `date('Y/m/')`, the month directory of an upload. */
  function MonthPath(d: Date): (s: string)
    requires Proper(d)
    ensures InRange(d) ==> |s| == 8 && s[4] == '/' && s[7] == '/'
  {
    YearText(d.year) + "/" + TwoDigits(d.month) + "/"
  }

  /** The number of leading digits of `s`, reading at most `max`. */
  function DigitRun(s: string, max: nat): (n: nat)
    ensures n <= max && n <= |s|
    ensures forall i :: 0 <= i < n ==> IsDigit(s[i])
    ensures n < max && n < |s| ==> !IsDigit(s[n])
  {
    if max == 0 || |s| == 0 || !IsDigit(s[0]) then 0 else 1 + DigitRun(s[1..], max - 1)
  }

  /**
   The fields `createFromFormat('Y-m-d', s)` reads: up to four year digits,
   a dash, up to two month digits, a dash, up to two day digits, and nothing
   after. The fields are not range-checked here; Normalize rolls them over.
   */
  function Parse(s: string): (r: Option<(int, int, int)>)
    ensures r.Some? ==> 0 <= r.value.0 < 10000 && 0 <= r.value.1 < 100 && 0 <= r.value.2 < 100
  {
    var a := DigitRun(s, 4);
    if a == 0 || a >= |s| || s[a] != '-' then None
    else
      var rest := s[a + 1..];
      var b := DigitRun(rest, 2);
      if b == 0 || b >= |rest| || rest[b] != '-' then None
      else
        var tail := rest[b + 1..];
        var c := DigitRun(tail, 2);
        if c == 0 || c != |tail| then None
        else
          DecimalBound(s[..a], 4);
          DecimalBound(rest[..b], 2);
          DecimalBound(tail, 2);
          Some((DigitsValue(s[..a]), DigitsValue(rest[..b]), DigitsValue(tail)))
  }

  /** k digits spell a number below 10^k. */
  lemma {:induction false} DecimalBound(s: string, k: nat)
    requires AllDigits(s) && |s| <= k
    ensures DigitsValue(s) < Pow10(k)
    decreases |s|
  {
    if |s| > 0 {
      DecimalBound(s[..|s| - 1], k - 1);
    }
  }

  /** The day `d` of month (y, m), rolling forward into later months while `d` exceeds the month's length. */
  function Overflow(y: int, m: int, d: int): (r: Date)
    requires 1 <= m <= 12 && d >= 1
    ensures Proper(r)
    ensures d <= DaysInMonth(y, m) ==> r == Date(y, m, d)
    decreases d
  {
    if d <= DaysInMonth(y, m) then Date(y, m, d)
    else if m == 12 then Overflow(y + 1, 1, d - DaysInMonth(y, m))
    else Overflow(y, m + 1, d - DaysInMonth(y, m))
  }

  /**
   The date PHP makes of out-of-range fields: month 0 is December of the year
   before and month 13 January of the next; day 0 is the last day of the
   month before, and a day past the month's end runs into the next month.
   */
  function Normalize(y: int, m: int, d: int): (r: Date)
    requires m >= 0 && d >= 0
    ensures Proper(r)
    ensures Proper(Date(y, m, d)) ==> r == Date(y, m, d)
  {
    var total := y * 12 + m - 1;
    var y' := total / 12;
    var m' := total % 12 + 1;
    assert 1 <= m <= 12 ==> y' == y && m' == m;
    if d == 0 then
      if m' == 1 then Date(y' - 1, 12, 31) else Date(y', m' - 1, DaysInMonth(y', m' - 1))
    else Overflow(y', m', d)
  }

  /** ReportsController::isValidDate on a string. */
  predicate IsValidDate(s: string) {
    match Parse(s)
    case None => false
    case Some((y, m, d)) => Format(Normalize(y, m, d)) == s
  }

  /** Formatting a proper date and parsing it back gives its fields exactly when its year has four digits. */
  lemma ParseFormat(d: Date)
    requires Proper(d)
    ensures InRange(d) ==> Parse(Format(d)) == Some((d.year, d.month, d.day))
    ensures !InRange(d) ==> Parse(Format(d)).None?
  {
    var ys, ms, ds := YearText(d.year), TwoDigits(d.month), TwoDigits(d.day);
    var s := Format(d);
    assert s == ys + "-" + ms + "-" + ds;
    if InRange(d) {
      assert DigitRun(s, 4) == 4 by {
        assert forall i :: 0 <= i < 4 ==> s[i] == ys[i];
        DigitRunFull(s, 4);
      }
      assert s[4] == '-';
      assert s[..4] == ys;
      var rest := s[5..];
      assert rest == ms + "-" + ds;
      assert DigitRun(rest, 2) == 2 by {
        DigitRunFull(rest, 2);
      }
      assert rest[..2] == ms;
      var tail := rest[3..];
      assert tail == ds;
      assert DigitRun(tail, 2) == 2 by {
        DigitRunFull(tail, 2);
      }
    } else if d.year >= 10000 {
      assert DigitRun(s, 4) == 4 by {
        DigitRunFull(s, 4);
      }
      assert s[4] == ys[4];
    } else {
      assert s[0] == '-';
    }
  }

  /** A run of at least `max` digits is read in full up to `max`. */
  lemma DigitRunFull(s: string, max: nat)
    requires max <= |s| && forall i :: 0 <= i < max ==> IsDigit(s[i])
    ensures DigitRun(s, max) == max
  {
    if max > 0 {
      DigitRunFull(s[1..], max - 1);
    }
  }

  /**
   isValidDate accepts exactly the canonical spellings of real dates: `s`
   passes when its fields form a proper date of which `s` is the `Y-m-d`
   spelling, so 2023-02-30 and 2024-2-29 fail while 2024-02-29 passes.
   */
  lemma ValidDateMeaning(s: string)
    ensures IsValidDate(s) <==> Parse(s).Some? && Proper(Date(Parse(s).value.0, Parse(s).value.1, Parse(s).value.2))
                                && Format(Date(Parse(s).value.0, Parse(s).value.1, Parse(s).value.2)) == s
  {
    if IsValidDate(s) {
      var (y, m, d) := Parse(s).value;
      var n := Normalize(y, m, d);
      ParseFormat(n);
    }
  }

  /** Every in-range date's spelling is accepted. */
  lemma FormatIsValid(d: Date)
    requires InRange(d)
    ensures IsValidDate(Format(d))
  {
    ParseFormat(d);
  }

  /** The date a valid date string spells. */
  function DateOf(s: string): (d: Date)
    requires IsValidDate(s)
    ensures InRange(d) && Format(d) == s
  {
    ValidDateMeaning(s);
    var (y, m, dd) := Parse(s).value;
    Date(y, m, dd)
  }

  /** A date formatted and read back is the same date. */
  lemma DateOfFormat(d: Date)
    requires InRange(d)
    ensures IsValidDate(Format(d)) && DateOf(Format(d)) == d
  {
    FormatIsValid(d);
    ParseFormat(d);
  }

  /** Chronological order. */
  predicate Before(a: Date, b: Date) {
    a.year < b.year || (a.year == b.year && (a.month < b.month || (a.month == b.month && a.day < b.day)))
  }

  /** `date('Y-m-01')`: the first day of `today`'s month. */
  function FirstOfMonth(today: Date): (d: Date)
    requires InRange(today)
    ensures InRange(d) && d.year == today.year && d.month == today.month && d.day == 1
  {
    Date(today.year, today.month, 1)
  }

  /** `date('Y-m-t')`: the last day of `today`'s month. */
  function LastOfMonth(today: Date): (d: Date)
    requires InRange(today)
    ensures InRange(d) && d.year == today.year && d.month == today.month
    ensures !InRange(Date(d.year, d.month, d.day + 1))
    ensures !Before(d, today)
  {
    Date(today.year, today.month, DaysInMonth(today.year, today.month))
  }

  /** The default report range, first to last day of the current month, is two valid dates in order. */
  lemma MonthRangeValid(today: Date)
    requires InRange(today)
    ensures IsValidDate(Format(FirstOfMonth(today))) && IsValidDate(Format(LastOfMonth(today)))
    ensures !Before(LastOfMonth(today), FirstOfMonth(today))
  {
    FormatIsValid(FirstOfMonth(today));
    FormatIsValid(LastOfMonth(today));
  }
}
