/** The date axis of the grid: the `YYYY-MM-DD` key of every day in the
 *  displayed period, and the month header above it as a list of
 *  (month, number of days) spans. The period is read from the `year`,
 *  `month` and `months` form fields. */
module DayKeysGenerator {
  import opened Optional
  import opened Calendar

  /** One month header cell: the month number and how many day columns it
   *  spans. The month is `None` where the client computes `NaN`. */
  datatype MonthSpan = MonthSpan(month: Option<int>, span: nat)

  /** How many days the loop `while (current <= dateTo)` visits. */
  function Count(from: Date, to: Date): (c: nat)
    requires Valid(from) && Valid(to)
    ensures c == 0 <==> DayNumber(to) < DayNumber(from)
    ensures c > 0 ==> DayNumber(to) == DayNumber(from) + c - 1
  {
    if DayNumber(to) < DayNumber(from) then 0 else DayNumber(to) - DayNumber(from) + 1
  }

  /** `n` consecutive days starting at `from`. */
  function DaysFrom(from: Date, n: nat): (ds: seq<Date>)
    requires Valid(from)
    ensures |ds| == n
    ensures n > 0 ==> ds[0] == from && Valid(ds[n - 1])
  {
    if n == 0 then []
    else if n == 1 then [from]
    else var p := DaysFrom(from, n - 1); p + [NextDay(p[n - 2])]
  }

  /** The days are valid, numbered one after the other, and each is the
   *  day after the one before it. */
  lemma {:induction false} DaysFromChain(from: Date, n: nat)
    requires Valid(from)
    ensures forall j :: 0 <= j < n ==>
              Valid(DaysFrom(from, n)[j]) && DayNumber(DaysFrom(from, n)[j]) == DayNumber(from) + j
    ensures forall i, j :: 0 <= i && j == i + 1 && j < n ==>
              Valid(DaysFrom(from, n)[i]) && DaysFrom(from, n)[j] == NextDay(DaysFrom(from, n)[i])
  {
    if n > 1 {
      DaysFromChain(from, n - 1);
      var p := DaysFrom(from, n - 1);
      assert DaysFrom(from, n) == p + [NextDay(p[n - 2])];
    }
  }

  /** The days from `from` through `to`, one after the other. */
  function DaysIn(from: Date, to: Date): (ds: seq<Date>)
    requires Valid(from) && Valid(to)
    ensures |ds| == Count(from, to)
  {
    DaysFrom(from, Count(from, to))
  }

  /** The keys `generateDayKeys` lists for a period: each day's
   *  `formatDateKey`. */
  function DayKeys(from: Date, to: Date): (keys: seq<string>)
    requires Valid(from) && Valid(to)
    ensures |keys| == Count(from, to)
  {
    DaysFromChain(from, Count(from, to));
    var ds := DaysIn(from, to);
    seq(|ds|, j requires 0 <= j < |ds| => FormatDateKey(ds[j]))
  }

  /** The month of each day. */
  function MonthsOf(ds: seq<Date>): (ms: seq<int>)
    ensures |ms| == |ds|
  {
    seq(|ds|, j requires 0 <= j < |ds| => ds[j].month)
  }

  /** Every span carries a month. */
  ghost predicate Labelled(spans: seq<MonthSpan>)
  {
    forall k :: 0 <= k < |spans| ==> spans[k].month.Some?
  }

  /** A run-length encoding: every span is labelled and covers at least one
   *  day, and neighbouring spans have different months. */
  ghost predicate Encoding(spans: seq<MonthSpan>)
  {
    && Labelled(spans)
    && (forall k :: 0 <= k < |spans| ==> spans[k].span >= 1)
    && (forall k, l :: 0 <= k && l == k + 1 && l < |spans| ==> spans[k].month != spans[l].month)
  }

  /** One more day of month `x` after the days an encoding describes: the
   *  last span grows when it is that month, otherwise a new span starts. */
  function AddMonth(spans: seq<MonthSpan>, x: int): (r: seq<MonthSpan>)
    ensures |r| >= 1 && r[|r| - 1].month == Some(x)
  {
    if spans != [] && spans[|spans| - 1].month == Some(x) then
      spans[..|spans| - 1] + [MonthSpan(Some(x), spans[|spans| - 1].span + 1)]
    else spans + [MonthSpan(Some(x), 1)]
  }

  /** Adding a day keeps an encoding an encoding. */
  lemma AddMonthEncoding(spans: seq<MonthSpan>, x: int)
    requires Encoding(spans)
    ensures Encoding(AddMonth(spans, x))
  {
  }

  /** Run-length encoding of a non-empty list of months: one span per
   *  stretch of equal months, in order. */
  function Runs(ms: seq<int>): (r: seq<MonthSpan>)
    requires |ms| >= 1
    ensures |r| >= 1 && r[|r| - 1].month == Some(ms[|ms| - 1])
    decreases |ms|
  {
    if |ms| == 1 then [MonthSpan(Some(ms[0]), 1)]
    else AddMonth(Runs(ms[..|ms| - 1]), ms[|ms| - 1])
  }

  /** The encoding of a list of months is a run-length encoding: labelled,
   *  no empty span, and no two neighbouring spans of the same month. */
  lemma {:induction false} RunsEncoding(ms: seq<int>)
    requires |ms| >= 1
    ensures Encoding(Runs(ms))
    decreases |ms|
  {
    if |ms| > 1 {
      RunsEncoding(ms[..|ms| - 1]);
      AddMonthEncoding(Runs(ms[..|ms| - 1]), ms[|ms| - 1]);
    }
  }

  /** `n` copies of `x`. */
  function Repeat(x: int, n: nat): (r: seq<int>)
    ensures |r| == n
  {
    if n == 0 then [] else Repeat(x, n - 1) + [x]
  }

  /** Sum of the spans. */
  function Total(spans: seq<MonthSpan>): int
  {
    if spans == [] then 0 else Total(spans[..|spans| - 1]) + spans[|spans| - 1].span
  }

  /** The month of every day column under the header: each span's month
   *  repeated as many times as it spans. */
  function Expand(spans: seq<MonthSpan>): (ms: seq<int>)
    requires Labelled(spans)
    ensures |ms| == Total(spans)
  {
    if spans == [] then []
    else Expand(spans[..|spans| - 1]) + Repeat(spans[|spans| - 1].month.value, spans[|spans| - 1].span)
  }

  lemma ExpandSnoc(spans: seq<MonthSpan>, s: MonthSpan)
    requires Labelled(spans) && s.month.Some?
    ensures Labelled(spans + [s])
    ensures Expand(spans + [s]) == Expand(spans) + Repeat(s.month.value, s.span)
  {
    assert (spans + [s])[..|spans|] == spans;
  }

  /** Adding a day to an encoding adds its month to the expansion. */
  lemma ExpandAddMonth(spans: seq<MonthSpan>, x: int)
    requires Encoding(spans)
    ensures Encoding(AddMonth(spans, x))
    ensures Expand(AddMonth(spans, x)) == Expand(spans) + [x]
  {
    AddMonthEncoding(spans, x);
    if spans != [] && spans[|spans| - 1].month == Some(x) {
      var pre := spans[..|spans| - 1];
      var last := spans[|spans| - 1];
      assert spans == pre + [last];
      ExpandSnoc(pre, last);
      ExpandSnoc(pre, MonthSpan(Some(x), last.span + 1));
    } else {
      ExpandSnoc(spans, MonthSpan(Some(x), 1));
    }
  }

  /** Appending one more day to a non-empty list of months adds that month
   *  to the expansion of its encoding. */
  lemma ExpandRunsStep(ms: seq<int>)
    requires |ms| >= 2
    ensures Labelled(Runs(ms)) && Labelled(Runs(ms[..|ms| - 1]))
    ensures Expand(Runs(ms)) == Expand(Runs(ms[..|ms| - 1])) + [ms[|ms| - 1]]
  {
    RunsEncoding(ms[..|ms| - 1]);
    ExpandAddMonth(Runs(ms[..|ms| - 1]), ms[|ms| - 1]);
  }

  /** A list is its prefix with its last element put back. */
  lemma PutBackLast(ms: seq<int>, e: seq<int>, prefix: seq<int>)
    requires |ms| >= 1 && prefix == ms[..|ms| - 1] && e == prefix + [ms[|ms| - 1]]
    ensures e == ms
  {
    assert ms == ms[..|ms| - 1] + [ms[|ms| - 1]];
  }

  /** The header describes the day columns exactly: expanding the spans
   *  gives back the month of every day, in order. */
  lemma {:induction false} RunsRoundTrip(ms: seq<int>)
    requires |ms| >= 1
    ensures Labelled(Runs(ms))
    ensures Expand(Runs(ms)) == ms
    decreases |ms|
  {
    assert Labelled(Runs(ms)) by {
      RunsEncoding(ms);
    }
    if |ms| == 1 {
      ExpandSnoc([], MonthSpan(Some(ms[0]), 1));
      assert [] + [MonthSpan(Some(ms[0]), 1)] == Runs(ms);
      PutBackLast(ms, Expand(Runs(ms)), []);
    } else {
      var n := |ms| - 1;
      RunsRoundTrip(ms[..n]);
      ExpandRunsStep(ms);
      PutBackLast(ms, Expand(Runs(ms)), Expand(Runs(ms[..n])));
    }
  }

  /** So the spans add up to the number of days, and each span is the
   *  number of days of its month in the period. */
  lemma RunsTotal(ms: seq<int>)
    requires |ms| >= 1
    ensures Total(Runs(ms)) == |ms|
  {
    RunsRoundTrip(ms);
  }

  /** Each month in the list equals the one before or follows it, December
   *  wrapping to January. */
  ghost predicate MonthSteps(ms: seq<int>)
  {
    forall i, j :: 0 <= i && j == i + 1 && j < |ms| ==> ms[j] == ms[i] || ms[j] == ms[i] % 12 + 1
  }

  /** Each span's month follows the one before, December wrapping to
   *  January. */
  ghost predicate LabelsWrap(r: seq<MonthSpan>)
  {
    forall k, l :: 0 <= k && l == k + 1 && l < |r| ==>
      r[k].month.Some? && r[l].month.Some? && r[l].month.value == r[k].month.value % 12 + 1
  }

  /** Months that only ever stay or move on by one (December to January
   *  wrapping) give span labels that move on by one each time. */
  lemma {:induction false} RunsWrap(ms: seq<int>)
    requires |ms| >= 1
    requires MonthSteps(ms)
    ensures LabelsWrap(Runs(ms))
    decreases |ms|
  {
    if |ms| > 1 {
      var n := |ms| - 1;
      assert MonthSteps(ms[..n]);
      RunsWrap(ms[..n]);
      RunsEncoding(ms[..n]);
      assert ms[n] == ms[n - 1] || ms[n] == ms[n - 1] % 12 + 1;
      AddMonthWraps(Runs(ms[..n]), ms[n]);
    }
  }

  /** Adding a day whose month equals or follows the last span's keeps the
   *  labels wrapping. */
  lemma AddMonthWraps(spans: seq<MonthSpan>, x: int)
    requires Encoding(spans) && LabelsWrap(spans) && |spans| >= 1
    requires var m := spans[|spans| - 1].month.value; x == m || x == m % 12 + 1
    ensures LabelsWrap(AddMonth(spans, x))
  {
    var r := AddMonth(spans, x);
    if spans[|spans| - 1].month == Some(x) {
      assert |r| == |spans| && forall k :: 0 <= k < |r| ==> r[k].month == spans[k].month;
    } else {
      assert r == spans + [MonthSpan(Some(x), 1)];
    }
  }

  /** The first day of the month `monthIndex` months after January of `y`
   *  is followed, one month later, by the first day of the next month. */
  lemma MonthStartStep(y: int, monthIndex: int)
    ensures DayNumber(MonthStart(y, monthIndex + 1)) > DayNumber(MonthStart(y, monthIndex))
  {
    var a := MonthStart(y, monthIndex);
    if monthIndex % 12 == 11 {
      assert (monthIndex + 1) / 12 == monthIndex / 12 + 1 && (monthIndex + 1) % 12 == 0;
      YearStep(a.year);
    } else {
      assert (monthIndex + 1) / 12 == monthIndex / 12 && (monthIndex + 1) % 12 == monthIndex % 12 + 1;
      MonthStep(a.year, a.month);
    }
  }

  /** Later months start later. */
  lemma {:induction false} MonthStartMonotone(y: int, a: int, b: int)
    requires a < b
    ensures DayNumber(MonthStart(y, a)) < DayNumber(MonthStart(y, b))
    decreases b - a
  {
    MonthStartStep(y, a);
    if a + 1 < b {
      MonthStartMonotone(y, a + 1, b);
    }
  }


  /** With `months <= 0` the period is empty: no day keys. */
  /** Counting from the first of month index `b` to the day before month
   *  index `a` gives no day when `a` does not come after `b`: a period of
   *  `months <= 0` months (a = month - 1 + months, b = month - 1) is empty. */
  lemma EmptyMonthRange(year: int, a: int, b: int)
    requires a <= b
    ensures DayKeys(MakeDate(year, b, 1), MakeDate(year, a, 0)) == []
  {
    MakeDateDayZero(year, a);
    if a < b {
      MonthStartMonotone(JsFullYear(year), a, b);
    }
    NoKeysUpTo(MakeDate(year, b, 1), MakeDate(year, a, 0), MonthStart(JsFullYear(year), b), MonthStart(JsFullYear(year), a));
  }

  /** No day lies from `first` up to the day before a `next` that is not
   *  later. */
  lemma NoKeysUpTo(from: Date, to: Date, first: Date, next: Date)
    requires Valid(first) && Valid(next) && from == first && to == PrevDay(next)
    requires DayNumber(next) <= DayNumber(first)
    ensures DayKeys(from, to) == []
  {
  }

  /** The days from `first` up to the day before `next`: as many as lie
   *  between them (none when `next` is not later), every date in between
   *  at the place of its distance from `first`. */
  lemma DaysUpTo(first: Date, next: Date, x: Date)
    requires Valid(first) && Valid(next)
    ensures |DaysIn(first, PrevDay(next))|
            == if DayNumber(next) <= DayNumber(first) then 0 else DayNumber(next) - DayNumber(first)
    ensures Valid(x) && DayNumber(first) <= DayNumber(x) < DayNumber(next)
            ==> DaysIn(first, PrevDay(next))[DayNumber(x) - DayNumber(first)] == x
  {
    if Valid(x) && DayNumber(first) <= DayNumber(x) < DayNumber(next) {
      DaysFromChain(first, Count(first, PrevDay(next)));
      var ds := DaysIn(first, PrevDay(next));
      DayNumberInjective(ds[DayNumber(x) - DayNumber(first)], x);
    }
  }

  /** The day after a date is in the same month or in the next one. */
  lemma NextDayMonth(d: Date)
    requires Valid(d)
    ensures NextDay(d).month == d.month || NextDay(d).month == d.month % 12 + 1
  {
  }

  /** Consecutive days keep their month or move to the next one, December
   *  wrapping to January. */
  lemma ConsecutiveMonths(from: Date, to: Date)
    requires Valid(from) && Valid(to)
    ensures MonthSteps(MonthsOf(DaysIn(from, to)))
  {
    var ds := DaysIn(from, to);
    DaysFromChain(from, Count(from, to));
    forall i, j | 0 <= i && j == i + 1 && j < |ds|
      ensures ds[j].month == ds[i].month || ds[j].month == ds[i].month % 12 + 1
    {
      NextDayMonth(ds[i]);
    }
  }

  /** The header of a non-empty period: labels run through the calendar in
   *  order, wrapping from 12 to 1 at a year boundary. */
  lemma SpanLabelsWrap(from: Date, to: Date)
    requires Valid(from) && Valid(to) && Count(from, to) > 0
    ensures LabelsWrap(Runs(MonthsOf(DaysIn(from, to))))
  {
    ConsecutiveMonths(from, to);
    RunsWrap(MonthsOf(DaysIn(from, to)));
  }

  /** The state of the month-span loop after `i` days: nothing yet, or the
   *  closed spans followed by the open one are the encoding of the first
   *  `i` months. */
  ghost predicate SpansSoFar(ms: seq<int>, i: nat, spans: seq<MonthSpan>, last: int, start: int)
  {
    && i <= |ms|
    && (i == 0 ==> spans == [] && start == 0)
    && (i > 0 ==> 0 <= start < i && spans + [MonthSpan(Some(last), i - start)] == Runs(ms[..i]))
  }

  /** One iteration of the month-span loop: a change of month closes the
   *  open span and opens a new one, otherwise the open span grows. */
  lemma SpansStep(ms: seq<int>, i: nat, x: int, spans: seq<MonthSpan>, last: int, start: int,
                  spans': seq<MonthSpan>, last': int, start': int, i': nat)
    requires i < |ms| && x == ms[i] && SpansSoFar(ms, i, spans, last, start) && (i == 0 ==> last == x)
    requires x != last ==> 0 <= start <= i && spans' == spans + [MonthSpan(Some(last), i - start)] && last' == x && start' == i
    requires x == last ==> spans' == spans && last' == last && start' == start
    requires i' == i + 1
    ensures SpansSoFar(ms, i', spans', last', start')
  {
    assert ms[..i + 1][..i] == ms[..i];
    if i > 0 {
      var open := MonthSpan(Some(last), i - start);
      assert (spans + [open])[..|spans|] == spans;
    }
  }

  /** After the last day, closing the open span gives the encoding of all
   *  the months. */
  lemma SpansDone(ms: seq<int>, spans: seq<MonthSpan>, last: int, start: int)
    requires |ms| >= 1 && SpansSoFar(ms, |ms|, spans, last, start)
    ensures spans + [MonthSpan(Some(last), |ms| - start)] == Runs(ms)
  {
    assert ms[..|ms|] == ms;
  }

  /** The generator keeps the form's `year`, `month` and `months` as
   *  `parseInt` read them; `None` is `NaN`, what `parseInt` gives for a
   *  missing or non-numeric field. */
  class DayKeysGenerator {
    const year: Option<int>
    const month: Option<int>
    const months: Option<int>

    constructor(year: Option<int>, month: Option<int>, months: Option<int>)
      ensures this.year == year && this.month == month && this.months == months
    {
      this.year := year;
      this.month := month;
      this.months := months;
    }

    /** `generateDayKeys`. The guard against a missing year or month
     *  compares with `null` and never fires; with `NaN` in any field the
     *  dates are invalid, `current <= dateTo` is false at once, and the
     *  list is empty. */
    method GenerateDayKeys() returns (dayKeys: seq<string>)
      ensures year.None? || month.None? || months.None? ==> dayKeys == []
      ensures year.Some? && month.Some? && months.Some? ==>
                dayKeys == DayKeys(MakeDate(year.value, month.value - 1, 1), MakeDate(year.value, month.value - 1 + months.value, 0))
    {
      if year.None? || month.None? || months.None? {
        return [];
      }
      var dateFrom := MakeDate(year.value, month.value - 1, 1);
      var dateTo := MakeDate(year.value, month.value - 1 + months.value, 0);
      dayKeys := KeysBetween(dateFrom, dateTo);
    }

    /** `generateMonthSpans`. An empty period still yields one span, of
     *  zero days, labelled with the first month; with `NaN` in the year or
     *  the month that label is `NaN` too. */
    method GenerateMonthSpans() returns (monthSpans: seq<MonthSpan>)
      ensures year.None? || month.None? ==> monthSpans == [MonthSpan(None, 0)]
      ensures year.Some? && month.Some? && months.None? ==>
                monthSpans == [MonthSpan(Some(MakeDate(year.value, month.value - 1, 1).month), 0)]
      ensures year.Some? && month.Some? && months.Some? ==>
                var ds := DaysIn(MakeDate(year.value, month.value - 1, 1), MakeDate(year.value, month.value - 1 + months.value, 0));
                monthSpans == if ds == [] then [MonthSpan(Some(MakeDate(year.value, month.value - 1, 1).month), 0)]
                              else Runs(MonthsOf(ds))
    {
      if year.None? || month.None? {
        return [MonthSpan(None, 0)];
      }
      var dateFrom := MakeDate(year.value, month.value - 1, 1);
      if months.None? {
        return [MonthSpan(Some(dateFrom.month), 0)];
      }
      var dateTo := MakeDate(year.value, month.value - 1 + months.value, 0);
      monthSpans := SpansBetween(dateFrom, dateTo);
    }
  }

  /** The walk both generators make: `current` is the `n`-th day of the
   *  period, `n` days after `from`. */
  ghost predicate OnDay(from: Date, to: Date, n: nat, current: Date)
    requires Valid(from) && Valid(to)
  {
    var ds := DaysIn(from, to);
    && n <= |ds|
    && Valid(current) && DayNumber(current) == DayNumber(from) + n
    && (n < |ds| ==> current == ds[n])
  }

  /** While `current <= dateTo` holds the walk is inside the period, and the
   *  next day is the next day of the period. */
  lemma OnDayStep(from: Date, to: Date, n: nat, current: Date)
    requires Valid(from) && Valid(to) && OnDay(from, to, n, current)
    requires DayNumber(current) <= DayNumber(to)
    ensures n < |DaysIn(from, to)| && current == DaysIn(from, to)[n]
    ensures OnDay(from, to, n + 1, NextDay(current))
  {
    DaysFromChain(from, Count(from, to));
  }

  /** Once `current <= dateTo` fails the walk has visited every day. */
  lemma OnDayStop(from: Date, to: Date, n: nat, current: Date)
    requires Valid(from) && Valid(to) && OnDay(from, to, n, current)
    requires DayNumber(current) > DayNumber(to)
    ensures n == |DaysIn(from, to)|
  {
  }

  /** Pushing the `n`-th day's key extends the first `n` keys by one. */
  lemma KeysPrefixStep(from: Date, to: Date, n: nat, current: Date)
    requires Valid(from) && Valid(to) && n < |DaysIn(from, to)| && current == DaysIn(from, to)[n]
    ensures Valid(current)
    ensures DayKeys(from, to)[..n] + [FormatDateKey(current)] == DayKeys(from, to)[..n + 1]
  {
    DaysFromChain(from, Count(from, to));
  }

  /** The loop of `generateDayKeys`: from `dateFrom` while `current <=
   *  dateTo`, push the day's key and move to the next day. */
  method KeysBetween(dateFrom: Date, dateTo: Date) returns (dayKeys: seq<string>)
    requires Valid(dateFrom) && Valid(dateTo)
    ensures dayKeys == DayKeys(dateFrom, dateTo)
  {
    ghost var keys := DayKeys(dateFrom, dateTo);
    dayKeys := [];
    var current := dateFrom;
    while DayNumber(current) <= DayNumber(dateTo)
      invariant OnDay(dateFrom, dateTo, |dayKeys|, current)
      invariant dayKeys == keys[..|dayKeys|]
      decreases DayNumber(dateTo) - DayNumber(current)
    {
      OnDayStep(dateFrom, dateTo, |dayKeys|, current);
      KeysPrefixStep(dateFrom, dateTo, |dayKeys|, current);
      dayKeys := dayKeys + [FormatDateKey(current)];
      current := NextDay(current);
    }
    OnDayStop(dateFrom, dateTo, |dayKeys|, current);
    assert dayKeys == keys;
  }

  /** The `n`-th day of the walk is in the `n`-th month of the list. */
  lemma MonthOfDay(from: Date, to: Date, n: nat, current: Date)
    requires Valid(from) && Valid(to) && n < |DaysIn(from, to)| && current == DaysIn(from, to)[n]
    ensures MonthsOf(DaysIn(from, to))[n] == current.month
  {
  }

  /** The state of the month-span loop after `n` days. */
  ghost predicate SpansLoop(from: Date, to: Date, n: nat, current: Date,
                            spans: seq<MonthSpan>, last: int, start: int)
    requires Valid(from) && Valid(to)
  {
    && OnDay(from, to, n, current)
    && (n == 0 ==> last == from.month)
    && SpansSoFar(MonthsOf(DaysIn(from, to)), n, spans, last, start)
  }

  /** One pass of the loop body, from the state before it (`n`, `current`,
   *  `spans`, `last`, `start`) to the state after it (the primed names). */
  lemma SpansLoopStep(from: Date, to: Date, n: nat, current: Date, spans: seq<MonthSpan>, last: int, start: int,
                      n': nat, current': Date, spans': seq<MonthSpan>, last': int, start': int)
    requires Valid(from) && Valid(to) && SpansLoop(from, to, n, current, spans, last, start)
    requires DayNumber(current) <= DayNumber(to)
    requires current.month != last ==>
               0 <= start <= n && spans' == spans + [MonthSpan(Some(last), n - start)] && last' == current.month && start' == n
    requires current.month == last ==> spans' == spans && last' == last && start' == start
    requires n' == n + 1 && current' == NextDay(current)
    ensures SpansLoop(from, to, n', current', spans', last', start')
  {
    OnDayStep(from, to, n, current);
    MonthOfDay(from, to, n, current);
    SpansStep(MonthsOf(DaysIn(from, to)), n, current.month, spans, last, start, spans', last', start', n');
  }

  /** The open span's start never passes the day count. */
  lemma SpansLoopStart(from: Date, to: Date, n: nat, current: Date, spans: seq<MonthSpan>, last: int, start: int)
    requires Valid(from) && Valid(to) && SpansLoop(from, to, n, current, spans, last, start)
    ensures Valid(current) && 0 <= start <= n
  {
  }

  /** When the walk has passed `dateTo`, closing the open span gives the
   *  result `generateMonthSpans` promises. */
  lemma SpansFinish(from: Date, to: Date, n: nat, current: Date,
                    spans: seq<MonthSpan>, last: int, start: int)
    requires Valid(from) && Valid(to) && SpansLoop(from, to, n, current, spans, last, start)
    requires DayNumber(current) > DayNumber(to)
    ensures 0 <= start <= n
    ensures Count(from, to) == 0 ==> spans + [MonthSpan(Some(last), n - start)] == [MonthSpan(Some(from.month), 0)]
    ensures Count(from, to) > 0 ==> spans + [MonthSpan(Some(last), n - start)] == Runs(MonthsOf(DaysIn(from, to)))
  {
    OnDayStop(from, to, n, current);
    if n > 0 {
      SpansDone(MonthsOf(DaysIn(from, to)), spans, last, start);
    }
  }

  /** When day `n` falls in a new month, the open span of `last` is
   *  closed with its length and a new one opens at day `n`. */
  method CloseOnNewMonth(month: int, n: int, spans: seq<MonthSpan>, last: int, start: int)
    returns (spans': seq<MonthSpan>, last': int, start': int)
    requires 0 <= start <= n
    ensures month != last ==> spans' == spans + [MonthSpan(Some(last), n - start)] && last' == month && start' == n
    ensures month == last ==> spans' == spans && last' == last && start' == start
  {
    spans', last', start' := spans, last, start;
    if month != last {
      spans' := spans + [MonthSpan(Some(last), n - start)];
      last' := month;
      start' := n;
    }
  }

  /** One pass of the loop of `generateMonthSpans`: close the open span on
   *  a new month, push the day's key and move to the next day. */
  method SpansDay(dateFrom: Date, dateTo: Date, dayKeys: seq<string>, current: Date,
                  monthSpans: seq<MonthSpan>, lastMonth: int, monthStart: int)
    returns (dayKeys': seq<string>, current': Date, monthSpans': seq<MonthSpan>, lastMonth': int, monthStart': int)
    requires Valid(dateFrom) && Valid(dateTo)
    requires SpansLoop(dateFrom, dateTo, |dayKeys|, current, monthSpans, lastMonth, monthStart)
    requires DayNumber(current) <= DayNumber(dateTo)
    ensures SpansLoop(dateFrom, dateTo, |dayKeys'|, current', monthSpans', lastMonth', monthStart')
    ensures DayNumber(current') == DayNumber(current) + 1
  {
    SpansLoopStart(dateFrom, dateTo, |dayKeys|, current, monthSpans, lastMonth, monthStart);
    monthSpans', lastMonth', monthStart' := CloseOnNewMonth(current.month, |dayKeys|, monthSpans, lastMonth, monthStart);
    dayKeys' := dayKeys + [FormatDateKey(current)];
    current' := NextDay(current);
    SpansLoopStep(dateFrom, dateTo, |dayKeys|, current, monthSpans, lastMonth, monthStart,
                  |dayKeys'|, current', monthSpans', lastMonth', monthStart');
  }

  /** The loop of `generateMonthSpans`: walks the same days, closing the
   *  open span whenever the month changes, and closes it once more after
   *  the last day. */
  method SpansBetween(dateFrom: Date, dateTo: Date) returns (monthSpans: seq<MonthSpan>)
    requires Valid(dateFrom) && Valid(dateTo)
    ensures Count(dateFrom, dateTo) == 0 ==> monthSpans == [MonthSpan(Some(dateFrom.month), 0)]
    ensures Count(dateFrom, dateTo) > 0 ==> monthSpans == Runs(MonthsOf(DaysIn(dateFrom, dateTo)))
  {
    var dayKeys: seq<string> := [];
    monthSpans := [];
    var current := dateFrom;
    var lastMonth := current.month;
    var monthStart := 0;
    while DayNumber(current) <= DayNumber(dateTo)
      invariant SpansLoop(dateFrom, dateTo, |dayKeys|, current, monthSpans, lastMonth, monthStart)
      decreases DayNumber(dateTo) - DayNumber(current)
    {
      dayKeys, current, monthSpans, lastMonth, monthStart :=
        SpansDay(dateFrom, dateTo, dayKeys, current, monthSpans, lastMonth, monthStart);
    }
    SpansFinish(dateFrom, dateTo, |dayKeys|, current, monthSpans, lastMonth, monthStart);
    monthSpans := monthSpans + [MonthSpan(Some(lastMonth), |dayKeys| - monthStart)];
  }
}
