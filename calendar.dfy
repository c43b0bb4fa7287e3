/** Calendar dates in the proleptic Gregorian calendar, as both Ruby's `Date`
 *  and JavaScript's `Date` count them: day numbers, weekdays, the next and
 *  previous day, JavaScript's normalising `new Date(y, monthIndex, day)`
 *  constructor, and the `YYYY-MM-DD` keys the grid and the server exchange. */
module Calendar {
  import opened Optional
  import opened Text

  datatype Date = Date(year: int, month: int, day: int)

  predicate IsLeapYear(y: int)
  {
    y % 4 == 0 && (y % 100 != 0 || y % 400 == 0)
  }

  function DaysInMonth(y: int, m: int): (n: int)
    requires 1 <= m <= 12
    ensures 28 <= n <= 31
  {
    if m == 2 then (if IsLeapYear(y) then 29 else 28)
    else if m == 4 || m == 6 || m == 9 || m == 11 then 30
    else 31
  }

  function DaysInYear(y: int): int
  {
    if IsLeapYear(y) then 366 else 365
  }

  ghost predicate Valid(d: Date)
  {
    1 <= d.month <= 12 && 1 <= d.day <= DaysInMonth(d.year, d.month)
  }

  /** Days in the months of year `y` before month `m` (m = 13 gives the
   *  whole year). */
  function DaysBeforeMonth(y: int, m: int): (n: int)
    requires 1 <= m <= 13
    ensures m == 13 ==> n == DaysInYear(y)
  {
    var leap := if m > 2 && IsLeapYear(y) then 1 else 0;
    leap + (match m
      case 1 => 0   case 2 => 31  case 3 => 59  case 4 => 90   case 5 => 120
      case 6 => 151 case 7 => 181 case 8 => 212 case 9 => 243  case 10 => 273
      case 11 => 304 case 12 => 334 case _ => 365)
  }

  lemma MonthStep(y: int, m: int)
    requires 1 <= m <= 12
    ensures DaysBeforeMonth(y, m + 1) == DaysBeforeMonth(y, m) + DaysInMonth(y, m)
  {
  }

  /** Days in all years before year `y` (year 1 starts at day 1). */
  function DaysBeforeYear(y: int): int
  {
    var p := y - 1;
    365 * p + p / 4 - p / 100 + p / 400
  }

  lemma YearStep(y: int)
    ensures DaysBeforeYear(y + 1) == DaysBeforeYear(y) + DaysInYear(y)
  {
    DivStep4(y);
    DivStep100(y);
    DivStep400(y);
  }

  lemma DivStep4(y: int)
    ensures y / 4 - (y - 1) / 4 == if y % 4 == 0 then 1 else 0
  {
  }

  lemma DivStep100(y: int)
    ensures y / 100 - (y - 1) / 100 == if y % 100 == 0 then 1 else 0
  {
  }

  lemma DivStep400(y: int)
    ensures y / 400 - (y - 1) / 400 == if y % 400 == 0 then 1 else 0
  {
  }

  /** The count of days since the proleptic day 0001-01-00: consecutive days
   *  have consecutive numbers, and comparing two dates is comparing their
   *  numbers, as JavaScript compares `Date` objects by time value. */
  function DayNumber(d: Date): int
    requires 1 <= d.month <= 12
  {
    DaysBeforeYear(d.year) + DaysBeforeMonth(d.year, d.month) + d.day
  }

  /** `getDay()`: 0 is Sunday, 6 is Saturday (0001-01-01 was a Monday). */
  function Weekday(d: Date): (w: int)
    requires 1 <= d.month <= 12
    ensures 0 <= w < 7
  {
    DayNumber(d) % 7
  }

  const SUNDAY := 0
  const SATURDAY := 6

  function NextDay(d: Date): (r: Date)
    requires Valid(d)
    ensures Valid(r) && DayNumber(r) == DayNumber(d) + 1
  {
    if d.day < DaysInMonth(d.year, d.month) then d.(day := d.day + 1)
    else if d.month < 12 then
      MonthStep(d.year, d.month);
      Date(d.year, d.month + 1, 1)
    else
      YearStep(d.year);
      Date(d.year + 1, 1, 1)
  }

  function PrevDay(d: Date): (r: Date)
    requires Valid(d)
    ensures Valid(r) && DayNumber(r) == DayNumber(d) - 1
  {
    if d.day > 1 then d.(day := d.day - 1)
    else if d.month > 1 then
      MonthStep(d.year, d.month - 1);
      Date(d.year, d.month - 1, DaysInMonth(d.year, d.month - 1))
    else
      YearStep(d.year - 1);
      Date(d.year - 1, 12, 31)
  }

  /** Moving `k` days forward (or backward when `k` is negative). */
  function AddDays(d: Date, k: int): (r: Date)
    requires Valid(d)
    ensures Valid(r) && DayNumber(r) == DayNumber(d) + k
    decreases if k < 0 then -k else k
  {
    if k == 0 then d
    else if k > 0 then AddDays(NextDay(d), k - 1)
    else AddDays(PrevDay(d), k + 1)
  }

  /** Two valid dates with the same day number are the same date. */
  lemma {:induction false} DayNumberInjective(a: Date, b: Date)
    requires Valid(a) && Valid(b) && DayNumber(a) == DayNumber(b)
    ensures a == b
  {
    if a.year < b.year {
      DayNumberYearGap(a, b);
    } else if b.year < a.year {
      DayNumberYearGap(b, a);
    } else if a.month < b.month {
      MonthGap(a.year, a.month, b.month);
    } else if b.month < a.month {
      MonthGap(a.year, b.month, a.month);
    }
  }

  lemma {:induction false} MonthGap(y: int, m1: int, m2: int)
    requires 1 <= m1 < m2 <= 12
    ensures DaysBeforeMonth(y, m2) >= DaysBeforeMonth(y, m1) + DaysInMonth(y, m1)
  {
  }

  lemma {:induction false} DayNumberYearGap(a: Date, b: Date)
    requires Valid(a) && Valid(b) && a.year < b.year
    ensures DayNumber(a) < DayNumber(b)
  {
    YearStep(a.year);
    assert DaysBeforeMonth(a.year, a.month) + a.day <= DaysInYear(a.year) by {
      MonthStep(a.year, a.month);
      if a.month < 12 { MonthGap(a.year, a.month, 12); MonthStep(a.year, 12); }
    }
    YearsAfter(a.year + 1, b.year);
  }

  lemma {:induction false} YearsAfter(y1: int, y2: int)
    requires y1 <= y2
    ensures DaysBeforeYear(y1) <= DaysBeforeYear(y2)
    decreases y2 - y1
  {
    if y1 < y2 {
      YearStep(y1);
      YearsAfter(y1 + 1, y2);
    }
  }

  /** Walking forward inside a month only moves the day of the month. */
  lemma {:induction false} AddDaysWithinMonth(d: Date, k: nat)
    requires Valid(d) && d.day + k <= DaysInMonth(d.year, d.month)
    ensures AddDays(d, k) == d.(day := d.day + k)
    decreases k
  {
    if k > 0 {
      AddDaysWithinMonth(NextDay(d), k - 1);
    }
  }

  /** JavaScript maps a two-digit year passed to `new Date(y, …)` into the
   *  twentieth century. */
  function JsFullYear(y: int): int
  {
    if 0 <= y <= 99 then 1900 + y else y
  }

  /** The first day of the month `monthIndex` months (zero-based, possibly out
   *  of range) after January of year `y`. */
  function MonthStart(y: int, monthIndex: int): (r: Date)
    ensures Valid(r) && r.day == 1
  {
    Date(y + monthIndex / 12, monthIndex % 12 + 1, 1)
  }

  /** `new Date(y, monthIndex, day)` in local time: out-of-range months roll
   *  into neighbouring years and out-of-range days into neighbouring months. */
  function MakeDate(y: int, monthIndex: int, day: int): (r: Date)
    ensures Valid(r)
  {
    AddDays(MonthStart(JsFullYear(y), monthIndex), day - 1)
  }

  /** On a real calendar date the constructor is the identity. */
  lemma MakeDateOfValid(d: Date)
    requires Valid(d) && !(0 <= d.year <= 99)
    ensures MakeDate(d.year, d.month - 1, d.day) == d
  {
    assert (d.month - 1) / 12 == 0 && (d.month - 1) % 12 == d.month - 1;
    assert MonthStart(JsFullYear(d.year), d.month - 1) == Date(d.year, d.month, 1);
    AddDaysWithinMonth(Date(d.year, d.month, 1), d.day - 1);
  }

  /** Day one of a month is the month's first day. */
  lemma MakeDateDayOne(y: int, monthIndex: int)
    ensures MakeDate(y, monthIndex, 1) == MonthStart(JsFullYear(y), monthIndex)
  {
  }

  /** Day zero of a month is the last day of the month before it. */
  lemma MakeDateDayZero(y: int, monthIndex: int)
    ensures MakeDate(y, monthIndex, 0) == PrevDay(MonthStart(JsFullYear(y), monthIndex))
  {
    var first := MonthStart(JsFullYear(y), monthIndex);
    assert AddDays(first, -1) == AddDays(PrevDay(first), 0);
  }

  /** `${getFullYear()}-${MM}-${DD}` with month and day padded to two digits. */
  function FormatDateKey(d: Date): (s: string)
    requires Valid(d)
    ensures var n := |s|;
      && n >= 7 && s[n - 6] == '-' && s[n - 3] == '-'
      && IsDigit(s[n - 5]) && IsDigit(s[n - 4]) && IsDigit(s[n - 2]) && IsDigit(s[n - 1])
      && DigitValue(s[n - 5]) * 10 + DigitValue(s[n - 4]) == d.month
      && DigitValue(s[n - 2]) * 10 + DigitValue(s[n - 1]) == d.day
  {
    IntText(d.year) + "-" + Pad2(d.month) + "-" + Pad2(d.day)
  }

  /** Ruby's cast of a `YYYY-MM-DD` string to a `Date`: the digits are read
   *  as year, month and day, and a triple that is not a calendar day casts
   *  to `nil`. */
  function ParseDateKey(s: string): (r: Option<Date>)
    requires IsDateKey(s)
    ensures r.Some? ==> Valid(r.value)
  {
    var y := DigitsValue(s[0..4]);
    var m := DigitsValue(s[5..7]);
    var d := DigitsValue(s[8..10]);
    if 1 <= m <= 12 && 1 <= d <= DaysInMonth(y, m) then Some(Date(y, m, d)) else None
  }

  lemma {:induction false} FourDigits(n: nat)
    requires 1000 <= n <= 9999
    ensures |NatToString(n)| == 4
  {
    assert |NatToString(n / 1000)| == 1;
    assert |NatToString(n / 100)| == 2;
    assert |NatToString(n / 10)| == 3;
  }

  lemma TwoDigitsValue(s: string)
    requires |s| == 2 && IsDigit(s[0]) && IsDigit(s[1])
    ensures DigitsValue(s) == DigitValue(s[0]) * 10 + DigitValue(s[1])
  {
    assert s[..1][..0] == [];
    assert DigitsValue(s[..1]) == DigitValue(s[0]);
    assert s[..|s| - 1] == s[..1];
  }

  /** A key formatted by the client is read back by the server as the same
   *  date, for every date with a four-digit year. */
  lemma {:induction false} DateKeyRoundTrip(d: Date)
    requires Valid(d) && 1000 <= d.year <= 9999
    ensures IsDateKey(FormatDateKey(d))
    ensures ParseDateKey(FormatDateKey(d)) == Some(d)
  {
    var ys := NatToString(d.year);
    FourDigits(d.year);
    var s := FormatDateKey(d);
    assert s == ys + "-" + Pad2(d.month) + "-" + Pad2(d.day);
    assert s[0..4] == ys;
    assert s[5..7] == Pad2(d.month);
    assert s[8..10] == Pad2(d.day);
    TwoDigitsValue(Pad2(d.month));
    TwoDigitsValue(Pad2(d.day));
  }
}
