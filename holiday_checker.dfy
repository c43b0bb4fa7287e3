/** The client's non-working-day test for a date column: weekends, the fixed
 *  Japanese public holidays, and substitute holidays, where a substitute
 *  holiday is the first weekday after a run of consecutive holidays that
 *  contains a Sunday. */
module HolidayChecker {
  import opened Text
  import opened Calendar
  import opened Constants
  import opened Js

  /** `_isValidYMD`: a string of the shape `YYYY-MM-DD`. */
  predicate IsValidYMD(v: JsValue)
    ensures IsValidYMD(v) <==>
      v.Str? && |v.s| == 10
      && forall i :: 0 <= i < 10 ==> if i == 4 || i == 7 then v.s[i] == '-' else IsDigit(v.s[i])
  {
    v.Str? && IsDateKey(v.s)
  }

  /** `_toDate`: the three fields read as numbers and given to
   *  `new Date(y, m - 1, d)`, so out-of-range months and days roll over. */
  function ToDate(ymd: string): (r: Date)
    requires IsDateKey(ymd)
    ensures Valid(r)
  {
    MakeDate(DigitsValue(ymd[0..4]), DigitsValue(ymd[5..7]) - 1, DigitsValue(ymd[8..10]))
  }

  /** `_mmdd`: month and day of a date, each padded to two digits. */
  function MonthDay(d: Date): (s: string)
    requires Valid(d)
    ensures |s| == 5 && s[2] == '-'
  {
    Pad2(d.month) + "-" + Pad2(d.day)
  }

  /** `_isHolidayDate`: the date's month and day are on the holiday list. */
  predicate IsHolidayDate(d: Date)
    requires Valid(d)
    ensures var key := FormatDateKey(d); IsHolidayDate(d) <==> key[|key| - 5..] in PUBLIC_HOLIDAY_JA
  {
    MonthDay(d) in PUBLIC_HOLIDAY_JA
  }

  predicate IsSaturday(ymd: string)
    requires IsDateKey(ymd)
  {
    Weekday(ToDate(ymd)) == SATURDAY
  }

  predicate IsSunday(ymd: string)
    requires IsDateKey(ymd)
  {
    Weekday(ToDate(ymd)) == SUNDAY
  }

  /** `isHoliday`: a date-shaped string whose `MM-DD` part is on the list;
   *  the year is never looked at. */
  predicate IsHoliday(v: JsValue)
    ensures IsHoliday(v) ==> IsValidYMD(v)
    ensures IsValidYMD(v) ==> (IsHoliday(v) <==> v.s[5..7] + "-" + v.s[8..10] in PUBLIC_HOLIDAY_JA)
  {
    if IsValidYMD(v) then
      assert v.s[5..] == v.s[5..7] + "-" + v.s[8..10];
      v.s[5..] in PUBLIC_HOLIDAY_JA
    else false
  }

  /** Every date whose day number lies in `[lo, hi)` is a listed holiday. */
  ghost predicate HolidaysBetween(lo: int, hi: int)
  {
    forall x: Date :: Valid(x) && lo <= DayNumber(x) < hi ==> IsHolidayDate(x)
  }

  /** The run of consecutive holidays that ends the day before `today`
   *  contains a Sunday: some Sunday before `today` starts an unbroken stretch
   *  of holidays up to the day before. */
  ghost predicate RunHasSunday(today: Date)
    requires Valid(today)
  {
    exists lo :: lo < DayNumber(today) && lo % 7 == SUNDAY && HolidaysBetween(lo, DayNumber(today))
  }

  /** The rule `isSubstituteHoliday` implements: a weekday that is not itself
   *  a listed holiday and follows a run of holidays containing a Sunday. */
  ghost predicate SubstituteHoliday(ymd: string)
    requires IsDateKey(ymd)
  {
    var today := ToDate(ymd);
    && Weekday(today) != SUNDAY && Weekday(today) != SATURDAY
    && ymd[5..] !in PUBLIC_HOLIDAY_JA
    && RunHasSunday(today)
  }

  /** A holiday just before a run of holidays extends the run by one day. */
  lemma ExtendRun(prev: Date, hi: int)
    requires Valid(prev) && IsHolidayDate(prev) && HolidaysBetween(DayNumber(prev) + 1, hi)
    ensures HolidaysBetween(DayNumber(prev), hi)
  {
    forall x: Date | Valid(x) && DayNumber(prev) <= DayNumber(x) < hi
      ensures IsHolidayDate(x)
    {
      if DayNumber(x) == DayNumber(prev) {
        DayNumberInjective(x, prev);
      }
    }
  }

  /** If no Sunday lies strictly between `prev` and `today` and `prev` is not
   *  a holiday, no run of holidays before `today` reaches back to a Sunday. */
  lemma NoSundayRun(today: Date, prev: Date)
    requires Valid(today) && Valid(prev) && !IsHolidayDate(prev)
    requires DayNumber(prev) < DayNumber(today)
    requires DayNumber(today) - DayNumber(prev) - 1 <= (DayNumber(today) - 1) % 7
    ensures !RunHasSunday(today)
  {
    forall lo | lo < DayNumber(today) && lo % 7 == SUNDAY
      ensures !HolidaysBetween(lo, DayNumber(today))
    {
      NoSundayBetween(DayNumber(today), DayNumber(prev), lo);
    }
  }

  /** Day numbers `t - 1` down to `p + 1` hold no multiple of seven when
   *  there are at most `(t - 1) % 7` of them. */
  lemma NoSundayBetween(t: int, p: int, lo: int)
    requires p < t && t - p - 1 <= (t - 1) % 7
    requires lo < t && lo % 7 == 0
    ensures lo <= p
  {
  }

  /** One step back from a day that is not a Sunday keeps the walk short of
   *  the previous Sunday and lowers the weekday by one. */
  lemma WalkStep(t: int, p: int)
    requires p < t && t - p - 1 <= (t - 1) % 7 && p % 7 != 0
    ensures t - p <= (t - 1) % 7
    ensures (p - 1) % 7 == p % 7 - 1
  {
  }

  /** The state of the backward walk: `prev` lies before day number `t`,
   *  every day after it up to `t` is a holiday, and none of those is a
   *  Sunday. */
  ghost predicate Walked(t: int, prev: Date)
  {
    && Valid(prev) && DayNumber(prev) < t
    && HolidaysBetween(DayNumber(prev) + 1, t)
    && t - DayNumber(prev) - 1 <= (t - 1) % 7
  }

  /** Stepping back over a holiday that is not a Sunday keeps the walk's
   *  state and lowers the weekday. */
  lemma WalkedStep(t: int, prev: Date)
    requires Walked(t, prev) && IsHolidayDate(prev) && Weekday(prev) != SUNDAY
    ensures Walked(t, PrevDay(prev)) && Weekday(PrevDay(prev)) < Weekday(prev)
  {
    ExtendRun(prev, t);
    WalkStep(t, DayNumber(prev));
  }

  /** Where the walk stops decides the answer: on a Sunday holiday the run
   *  has a Sunday, on a day that is not a holiday it has none. */
  lemma WalkedStop(today: Date, prev: Date)
    requires Valid(today) && Walked(DayNumber(today), prev)
    ensures IsHolidayDate(prev) && Weekday(prev) == SUNDAY ==> RunHasSunday(today)
    ensures !IsHolidayDate(prev) ==> !RunHasSunday(today)
  {
    if IsHolidayDate(prev) {
      ExtendRun(prev, DayNumber(today));
    } else {
      NoSundayRun(today, prev);
    }
  }

  /** The loop of `isSubstituteHoliday`, from the day before `today`: walks
   *  back through consecutive holidays and answers true on meeting a
   *  Sunday, false on the first day that is not a holiday. */
  method WalkBack(today: Date) returns (b: bool)
    requires Valid(today)
    ensures b <==> RunHasSunday(today)
  {
    var prev := PrevDay(today);
    if !IsHolidayDate(prev) {
      WalkedStop(today, prev);
      return false;
    }
    while IsHolidayDate(prev)
      invariant Walked(DayNumber(today), prev)
      decreases Weekday(prev)
    {
      if Weekday(prev) == SUNDAY {
        WalkedStop(today, prev);
        return true;
      }
      WalkedStep(DayNumber(today), prev);
      prev := PrevDay(prev);
    }
    WalkedStop(today, prev);
    return false;
  }

  /** `isSubstituteHoliday`: a weekday, not itself on the list, whose
   *  backward walk meets a Sunday. */
  method IsSubstituteHoliday(ymd: JsValue) returns (b: bool)
    ensures b <==> IsValidYMD(ymd) && SubstituteHoliday(ymd.s)
  {
    if !IsValidYMD(ymd) {
      return false;
    }
    var today := ToDate(ymd.s);
    var dow := Weekday(today);
    if dow == SUNDAY || dow == SATURDAY {
      return false;
    }
    if IsHoliday(ymd) {
      return false;
    }
    b := WalkBack(today);
  }

  /** `isNonWorkingDay`: a date-shaped string that falls on a Saturday or a
   *  Sunday, is a listed holiday, or is a substitute holiday. Anything else,
   *  including a value that is not such a string, is a working day. */
  method IsNonWorkingDay(ymd: JsValue) returns (b: bool)
    ensures b <==> IsValidYMD(ymd)
                   && (IsSaturday(ymd.s) || IsSunday(ymd.s) || IsHoliday(ymd) || SubstituteHoliday(ymd.s))
  {
    if !IsValidYMD(ymd) {
      return false;
    }
    if IsSaturday(ymd.s) || IsSunday(ymd.s) || IsHoliday(ymd) {
      return true;
    }
    b := IsSubstituteHoliday(ymd);
  }

  /** A substitute holiday always follows a listed holiday. */
  lemma SubstituteFollowsHoliday(ymd: string)
    requires IsDateKey(ymd) && SubstituteHoliday(ymd)
    ensures IsHolidayDate(PrevDay(ToDate(ymd)))
  {
    var today := ToDate(ymd);
    var lo :| lo < DayNumber(today) && lo % 7 == SUNDAY && HolidaysBetween(lo, DayNumber(today));
    assert lo <= DayNumber(PrevDay(today)) < DayNumber(today);
  }

  /** A substitute holiday is a weekday and not itself on the list, and so is
   *  never a Saturday, a Sunday or a holiday under any of the other tests. */
  lemma SubstituteIsOrdinaryWeekday(ymd: string)
    requires IsDateKey(ymd) && SubstituteHoliday(ymd)
    ensures !IsSaturday(ymd) && !IsSunday(ymd) && !IsHoliday(Str(ymd))
  {
  }

  /** The list is keyed by month and day only: two date strings with the same
   *  `MM-DD` part are both holidays or both not, whatever their years. */
  lemma HolidayIgnoresYear(a: string, b: string)
    requires IsDateKey(a) && IsDateKey(b) && a[5..] == b[5..]
    ensures IsHoliday(Str(a)) <==> IsHoliday(Str(b))
  {
  }

  /** Two digits read as a number and padded back give the same two digits. */
  lemma Pad2OfDigits(s: string)
    requires |s| == 2 && IsDigit(s[0]) && IsDigit(s[1])
    ensures DigitsValue(s) < 100 && Pad2(DigitsValue(s)) == s
  {
    TwoDigitsValue(s);
    var p := Pad2(DigitsValue(s));
    assert DigitValue(p[0]) == DigitValue(s[0]) && DigitValue(p[1]) == DigitValue(s[1]);
  }

  /** On a real calendar date with a year past 99, `_toDate` reads back the
   *  date the key names. */
  lemma ToDateOfCalendarKey(ymd: string)
    requires IsDateKey(ymd) && ParseDateKey(ymd).Some? && ParseDateKey(ymd).value.year >= 100
    ensures ToDate(ymd) == ParseDateKey(ymd).value
  {
    var d := Date(DigitsValue(ymd[0..4]), DigitsValue(ymd[5..7]), DigitsValue(ymd[8..10]));
    assert ParseDateKey(ymd).value == d;
    assert MakeDate(d.year, d.month - 1, d.day) == d by {
      MakeDateOfValid(d);
    }
  }

  /** The `MM-DD` part of a key is `_mmdd` of the date the key names. */
  lemma MonthDayOfKey(ymd: string)
    requires IsDateKey(ymd) && ParseDateKey(ymd).Some?
    ensures MonthDay(ParseDateKey(ymd).value) == ymd[5..]
  {
    var d := ParseDateKey(ymd).value;
    Pad2OfDigits(ymd[5..7]);
    Pad2OfDigits(ymd[8..10]);
    assert MonthDay(d) == ymd[5..7] + "-" + ymd[8..10];
    assert ymd[5..] == ymd[5..7] + "-" + ymd[8..10];
  }

  /** On a real calendar date (a year past 99, a month and a day that exist)
   *  the string test `isHoliday` and the date test `_isHolidayDate` agree. */
  lemma HolidayTestsAgree(ymd: string)
    requires IsDateKey(ymd) && ParseDateKey(ymd).Some? && ParseDateKey(ymd).value.year >= 100
    ensures IsHoliday(Str(ymd)) <==> IsHolidayDate(ToDate(ymd))
  {
    ToDateOfCalendarKey(ymd);
    MonthDayOfKey(ymd);
  }
}
