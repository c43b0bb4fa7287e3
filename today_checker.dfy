/** The client's "is this column today?" test: the checker captures the
 *  current date as a `YYYY-MM-DD` key when it is built and compares
 *  strings against it. */
module TodayChecker {
  import opened Optional
  import opened Text
  import opened Calendar
  import opened Js

  /** A checker holds the key of the day it was built on. */
  datatype Checker = Checker(today: string)
  {
    /** `isToday`: a string, of the date-key shape, equal to the captured
     *  key. */
    predicate IsToday(ymd: JsValue)
      ensures IsToday(ymd) ==> ymd == Str(today)
      ensures IsDateKey(today) ==> (IsToday(ymd) <==> ymd == Str(today))
    {
      ymd.Str? && IsDateKey(ymd.s) && ymd.s == today
    }
  }

  /** The constructor: the clock's local date, as year, month and day with
   *  month and day padded to two digits. For a four-digit year the key is a
   *  date key that names exactly that day. */
  function NewChecker(now: Date): (c: Checker)
    requires Valid(now)
    ensures 1000 <= now.year <= 9999 ==> IsDateKey(c.today) && ParseDateKey(c.today) == Some(now)
  {
    if 1000 <= now.year <= 9999 then DateKeyRoundTrip(now); Checker(FormatDateKey(now))
    else Checker(FormatDateKey(now))
  }

  /** Two digit strings of the same length and value are the same string. */
  lemma {:induction false} DigitsInjective(a: string, b: string)
    requires |a| == |b|
    requires forall i :: 0 <= i < |a| ==> IsDigit(a[i])
    requires forall i :: 0 <= i < |b| ==> IsDigit(b[i])
    requires DigitsValue(a) == DigitsValue(b)
    ensures a == b
    decreases |a|
  {
    if a != [] {
      var n := |a| - 1;
      assert DigitValue(a[n]) == DigitValue(b[n]);
      DigitsInjective(a[..n], b[..n]);
      assert a == a[..n] + [a[n]] && b == b[..n] + [b[n]];
    }
  }

  /** Two date keys that read as the same calendar day are the same
   *  string. */
  lemma SameDaySameKey(a: string, b: string)
    requires IsDateKey(a) && IsDateKey(b)
    requires ParseDateKey(a).Some? && ParseDateKey(a) == ParseDateKey(b)
    ensures a == b
  {
    DigitsInjective(a[0..4], b[0..4]);
    DigitsInjective(a[5..7], b[5..7]);
    DigitsInjective(a[8..10], b[8..10]);
    assert a == a[0..4] + "-" + a[5..7] + "-" + a[8..10];
    assert b == b[0..4] + "-" + b[5..7] + "-" + b[8..10];
  }

  /** In a four-digit year, `isToday` holds of exactly one value: the
   *  `YYYY-MM-DD` string that names the day the checker was built. */
  lemma IsTodayExactly(now: Date, v: JsValue)
    requires Valid(now) && 1000 <= now.year <= 9999
    ensures NewChecker(now).IsToday(v) <==> v.Str? && IsDateKey(v.s) && ParseDateKey(v.s) == Some(now)
  {
    var key := NewChecker(now).today;
    if v.Str? && IsDateKey(v.s) && ParseDateKey(v.s) == Some(now) {
      SameDaySameKey(v.s, key);
    }
  }
}
