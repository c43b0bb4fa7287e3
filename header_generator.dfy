/** `HeaderGenerator#generateHeaders`: the three header rows of the grid,
 *  month names over day-of-month numbers over weekday names, after twelve
 *  static column titles that span all three rows. */
module HeaderGenerator {
  import opened Optional
  import opened Text
  import opened Calendar
  import opened Constants
  import opened DayKeysGenerator
  import opened ColumnWidthsManager
  import opened Js
  import opened Grid

  /** One header entry: a static title `{label, rowspan: 3}`, a month
   *  `{label, colspan}`, the empty string `''`, or a day entry `{label}`
   *  whose label is `undefined` when the weekday lookup misses. */
  datatype HeaderCell =
    | StaticTitle(title: string)
    | MonthTitle(month: string, colspan: int)
    | Blank
    | DayTitle(text: Option<string>)

  /** What `generateHeaders` returns: the object
   *  `{nestedHeaders: [], dayKeys: []}` for an empty period, otherwise the
   *  array of the three header rows. */
  datatype Headers =
    | EmptyObject
    | Nested(monthRow: seq<HeaderCell>, dayRow: seq<HeaderCell>, weekRow: seq<HeaderCell>)

  const STATIC_TITLES: seq<string> := [
    "ID", "Lock Ver", "Project ID", "トラッカー", "題名", "説明",
    "担当者", "優先度", "進捗率 %", "見積工数", "予定済工数", "CHK"
  ]

  const WEEK_DAYS: seq<string> := ["日", "月", "火", "水", "木", "金", "土"]

  function StaticHeader(): (cells: seq<HeaderCell>)
    ensures |cells| == |STATIC_TITLES|
  {
    seq(|STATIC_TITLES|, i requires 0 <= i < |STATIC_TITLES| => StaticTitle(STATIC_TITLES[i]))
  }

  /** `ms.month + '月'`, the month being `NaN` when the period's start was
   *  not a date. */
  function MonthText(m: Option<int>): (s: string)
    ensures |s| >= 2 && s[|s| - 1] == '月'
    ensures m.None? ==> s == "NaN月"
    ensures m.Some? && m.value >= 0 ==>
      (forall i :: 0 <= i < |s| - 1 ==> IsDigit(s[i])) && DigitsValue(s[..|s| - 1]) == m.value
  {
    (if m.Some? then IntText(m.value) else "NaN") + "月"
  }

  /** `new Date(d).getDate().toString()`: `"NaN"` for a key that is not a
   *  date. */
  function DayText(key: string): (s: string)
    ensures s == "NaN" <==> DayOf(Str(key)).None?
    ensures DayOf(Str(key)).Some? && DayOf(Str(key)).value.day >= 0 ==>
      (forall i :: 0 <= i < |s| ==> IsDigit(s[i])) && DigitsValue(s) == DayOf(Str(key)).value.day
  {
    match DayOf(Str(key))
    case Some(d) => IntText(d.day)
    case None => "NaN"
  }

  /** `weekDays[new Date(d).getDay()]`: `undefined` for a key that is not a
   *  date. */
  function WeekText(key: string): (w: Option<string>)
    ensures w.None? <==> DayOf(Str(key)).None?
    ensures w.Some? ==> w.value in WEEK_DAYS
  {
    match DayOf(Str(key))
    case Some(d) => Some(WEEK_DAYS[Weekday(d)])
    case None => None
  }

  function MonthCells(spans: seq<MonthSpan>): (cells: seq<HeaderCell>)
    ensures |cells| == |spans|
  {
    seq(|spans|, i requires 0 <= i < |spans| => MonthTitle(MonthText(spans[i].month), spans[i].span))
  }

  function Blanks(n: nat): (cells: seq<HeaderCell>)
    ensures |cells| == n
  {
    seq(n, _ => Blank)
  }

  function DayCells(dayKeys: seq<string>): (cells: seq<HeaderCell>)
    ensures |cells| == |dayKeys|
  {
    seq(|dayKeys|, i requires 0 <= i < |dayKeys| => DayTitle(Some(DayText(dayKeys[i]))))
  }

  function WeekCells(dayKeys: seq<string>): (cells: seq<HeaderCell>)
    ensures |cells| == |dayKeys|
  {
    seq(|dayKeys|, i requires 0 <= i < |dayKeys| => DayTitle(WeekText(dayKeys[i])))
  }

  /** The headers for a period: nothing but the empty object when there are
   *  no day keys; otherwise a month row of the twelve titles and one entry
   *  per month span, and a day row and a weekday row of twelve blanks and
   *  one entry per day key, in day-key order. */
  function GenerateHeaders(dayKeys: seq<string>, monthSpans: seq<MonthSpan>): (h: Headers)
    ensures h.EmptyObject? <==> dayKeys == []
    ensures h.Nested? ==>
      && |h.monthRow| == |STATIC_TITLES| + |monthSpans|
      && |h.dayRow| == |STATIC_TITLES| + |dayKeys| && |h.weekRow| == |STATIC_TITLES| + |dayKeys|
      && (forall i :: 0 <= i < |STATIC_TITLES| ==> h.monthRow[i] == StaticTitle(STATIC_TITLES[i]))
      && (forall i :: 0 <= i < |STATIC_TITLES| ==> h.dayRow[i] == Blank && h.weekRow[i] == Blank)
      && (forall k :: 0 <= k < |monthSpans| ==>
            h.monthRow[|STATIC_TITLES| + k] == MonthTitle(MonthText(monthSpans[k].month), monthSpans[k].span))
      && (forall k :: 0 <= k < |dayKeys| ==>
            h.dayRow[|STATIC_TITLES| + k] == DayTitle(Some(DayText(dayKeys[k])))
            && h.weekRow[|STATIC_TITLES| + k] == DayTitle(WeekText(dayKeys[k])))
  {
    if dayKeys == [] then EmptyObject
    else
      Nested(StaticHeader() + MonthCells(monthSpans),
             Blanks(|STATIC_TITLES|) + DayCells(dayKeys),
             Blanks(|STATIC_TITLES|) + WeekCells(dayKeys))
  }

  /** Sum of the colspans of a month row's entries after the static titles. */
  function Colspans(cells: seq<HeaderCell>): int
  {
    if cells == [] then 0
    else Colspans(cells[..|cells| - 1]) + (if cells[|cells| - 1].MonthTitle? then cells[|cells| - 1].colspan else 0)
  }

  lemma {:induction false} ColspansOfMonths(spans: seq<MonthSpan>)
    ensures Colspans(MonthCells(spans)) == Total(spans)
  {
    if spans != [] {
      ColspansOfMonths(spans[..|spans| - 1]);
      assert MonthCells(spans)[..|spans| - 1] == MonthCells(spans[..|spans| - 1]);
    }
  }

  /** For a period the day-keys generator produced, the month entries span
   *  exactly the day columns: their colspans add up to the number of day
   *  keys, and every header row is as wide as the widths list. */
  lemma MonthsSpanDayColumns(from: Date, to: Date)
    requires Valid(from) && Valid(to) && Count(from, to) > 0
    ensures var spans := Runs(MonthsOf(DaysIn(from, to)));
      var h := GenerateHeaders(DayKeys(from, to), spans);
      && h.Nested?
      && Colspans(h.monthRow[|STATIC_TITLES|..]) == |DayKeys(from, to)|
      && |h.dayRow| == |h.weekRow| == |ColumnWidths(DayKeys(from, to))|
  {
    var spans := Runs(MonthsOf(DaysIn(from, to)));
    var h := GenerateHeaders(DayKeys(from, to), spans);
    assert h.monthRow[|STATIC_TITLES|..] == MonthCells(spans);
    ColspansOfMonths(spans);
    RunsTotal(MonthsOf(DaysIn(from, to)));
  }

  /** A key the client formatted from a date is labelled with that date's
   *  day of the month and its weekday name. */
  lemma LabelsOfFormattedKey(d: Date)
    requires Valid(d) && 1000 <= d.year <= 9999
    ensures DayText(FormatDateKey(d)) == IntText(d.day)
    ensures WeekText(FormatDateKey(d)) == Some(WEEK_DAYS[Weekday(d)])
  {
    DateKeyRoundTrip(d);
  }
}
