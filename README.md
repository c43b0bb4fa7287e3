# Detailed schedule Gantt: a verified model

This project models the core of the Redmine plugin "detailed schedule Gantt" in Dafny. The plugin adds a spreadsheet-like Gantt chart to Redmine. Each issue is a row, and each day of the displayed period is a column holding the planned effort in person-days. Project-control rows and milestone rows draw the periods of projects and versions as merged cells. A footer grid shows each person's daily total.

The model has two halves.

**Server (Ruby on Rails).** The plugin's database tables are fields of one `Store.Database` class:
- issues and their daily entries;
- projects, versions and per-person daily totals;
- per-user sort orders;
- the staleness registry.

The controller actions and the `Issue`, `Project` and `Version` patches are methods on that database. Each states:
- its HTTP status;
- the new contents of every table it writes;
- that nothing else changes.

The derived totals are kept as stated invariants, and several lemmas show that each operation preserves them:
- an issue's scheduled days are the sum of its daily entries;
- its check value is scheduled minus estimated;
- a project's totals are the sum over its issues;
- a person's daily total is the clamped sum over the issues assigned to them.

A transaction is modelled as a snapshot of the database; a rollback restores that snapshot.

Effort figures are decimals with two fractional digits. The model holds them as integer hundredths, rounded half-up, which is how Ruby's `BigDecimal#round(2)` rounds.

**Client (JavaScript).** There is one module per source file:
- the day-key and month-span generators and the holiday and today checks;
- the header, column and width generators;
- the project-control, milestone and tally row generators with their merged cells;
- the after-change save handlers with their validators and per-row batching;
- paste, drag, insert, copy, delete, recolour and sort-number commands;
- the reload manager.

Grid rows are maps from property names to JavaScript values (`Js.JsValue`). Code that fills arrays in loops or mutates rows is modelled as methods with loop invariants. Each method is proved against a function that states the result, and the lemmas about those functions carry what the code promises.

Several inputs enter as parameters:
- Redmine's permission checks are data in an `Actor` value;
- Redmine's own record validations are a `validate` parameter;
- the clock is a time parameter;
- every server reply the client receives is a parameter.

## Model

| member | source | states |
|---|---|---|
| DayKeysGenerator.Count | redmine_detailed_schedule_gantt/assets/javascripts/util/day_keys_generator.js:34 | the loop visits no day exactly when `dateTo` is before `dateFrom`, otherwise every day from one to the other inclusive |
| DayKeysGenerator.DaysFromChain | redmine_detailed_schedule_gantt/assets/javascripts/util/day_keys_generator.js:34-37 | the days the loop walks are valid dates, each the calendar day after the one before |
| DayKeysGenerator.DayKeys | redmine_detailed_schedule_gantt/assets/javascripts/util/day_keys_generator.js:35 | one key per visited day |
| DayKeysGenerator.KeysBetween | redmine_detailed_schedule_gantt/assets/javascripts/util/day_keys_generator.js:31-39 | the `while (current <= dateTo)` loop pushes exactly the `formatDateKey` of every day from `dateFrom` through `dateTo`, in order |
| DayKeysGenerator.DayKeysGenerator.GenerateDayKeys | redmine_detailed_schedule_gantt/assets/javascripts/util/day_keys_generator.js:23-40 | with the year, month and period read, the keys are those of the first day of the month through the last day of the month `months - 1` later; a field that is not a number gives no keys |
| DayKeysGenerator.EmptyMonthRange | redmine_detailed_schedule_gantt/assets/javascripts/util/day_keys_generator.js:29-30 | a period of zero or fewer months lists no day |
| DayKeysGenerator.DaysUpTo | redmine_detailed_schedule_gantt/assets/javascripts/util/day_keys_generator.js:29-37 | the period holds as many days as lie between its first day and the first day after it, each date at the place of its distance from the first |
| DayKeysGenerator.Runs | redmine_detailed_schedule_gantt/assets/javascripts/util/day_keys_generator.js:66-76 | the spans of a non-empty list of months end with the month of the last day |
| DayKeysGenerator.RunsEncoding | redmine_detailed_schedule_gantt/assets/javascripts/util/day_keys_generator.js:66-76 | the spans form a run-length encoding: each labelled, none empty, no two neighbours with the same month |
| DayKeysGenerator.RunsRoundTrip | redmine_detailed_schedule_gantt/assets/javascripts/util/day_keys_generator.js:66-76 | expanding the spans gives back the month of every day, in order |
| DayKeysGenerator.RunsTotal | redmine_detailed_schedule_gantt/assets/javascripts/util/day_keys_generator.js:68-76 | the spans add up to the number of days |
| DayKeysGenerator.ExpandAddMonth | redmine_detailed_schedule_gantt/assets/javascripts/util/day_keys_generator.js:67-72 | one more day adds its month to the expansion and keeps the encoding |
| DayKeysGenerator.AddMonthEncoding | redmine_detailed_schedule_gantt/assets/javascripts/util/day_keys_generator.js:67-72 | growing the open span or opening a new one keeps a run-length encoding |
| DayKeysGenerator.ConsecutiveMonths | redmine_detailed_schedule_gantt/assets/javascripts/util/day_keys_generator.js:73 | consecutive days keep their month or move to the next, December wrapping to January |
| DayKeysGenerator.NextDayMonth | redmine_detailed_schedule_gantt/assets/javascripts/util/day_keys_generator.js:73 | the day after a date is in the same month or the next one |
| DayKeysGenerator.RunsWrap | redmine_detailed_schedule_gantt/assets/javascripts/util/day_keys_generator.js:67-70 | months that only stay or move on by one give span labels that move on by one |
| DayKeysGenerator.SpanLabelsWrap | redmine_detailed_schedule_gantt/assets/javascripts/util/day_keys_generator.js:66-78 | the header labels of a non-empty period run through the calendar, 12 followed by 1 |
| DayKeysGenerator.SpansStep | redmine_detailed_schedule_gantt/assets/javascripts/util/day_keys_generator.js:67-72 | one iteration: a change of month closes the open span with its length, otherwise the open span grows |
| DayKeysGenerator.SpansDone | redmine_detailed_schedule_gantt/assets/javascripts/util/day_keys_generator.js:76 | closing the open span after the last day gives the encoding of all the months |
| DayKeysGenerator.SpansFinish | redmine_detailed_schedule_gantt/assets/javascripts/util/day_keys_generator.js:66-76 | when the walk passes `dateTo`, the closed spans are the encoding, or one empty span of the first month for an empty period |
| DayKeysGenerator.CloseOnNewMonth | redmine_detailed_schedule_gantt/assets/javascripts/util/day_keys_generator.js:67-71 | a new month closes the open span with `dayKeys.length - monthStart` days and opens one at the current day; otherwise nothing changes |
| DayKeysGenerator.SpansBetween | redmine_detailed_schedule_gantt/assets/javascripts/util/day_keys_generator.js:59-78 | the loop yields the run-length encoding of the period's months, or one zero-day span of the first month when the period is empty |
| DayKeysGenerator.DayKeysGenerator.GenerateMonthSpans | redmine_detailed_schedule_gantt/assets/javascripts/util/day_keys_generator.js:51-79 | an empty period still yields one span of zero days; a missing year or month gives one unlabelled span; otherwise the spans encode the months of the days `generateDayKeys` lists |
| DayKeysGenerator.MonthStartMonotone | redmine_detailed_schedule_gantt/assets/javascripts/util/day_keys_generator.js:29-30 | the first day of a later month comes later |
| DayKeysGenerator.OnDayStep | redmine_detailed_schedule_gantt/assets/javascripts/util/day_keys_generator.js:34-36 | while `current <= dateTo` holds, `current` is the next day of the period and stepping moves to the one after |
| DayKeysGenerator.OnDayStop | redmine_detailed_schedule_gantt/assets/javascripts/util/day_keys_generator.js:34 | once `current <= dateTo` fails, every day of the period has been visited |
| Calendar.FormatDateKey | redmine_detailed_schedule_gantt/assets/javascripts/util/day_keys_generator.js:82-84 | the key ends in `-MM-DD`, two digits each, reading back as the date's month and day, whatever the year |
| HolidayChecker.ToDate | redmine_detailed_schedule_gantt/assets/javascripts/util/holiday_checker.js:27-30 | `_toDate` always yields a valid date, out-of-range fields rolling over as `new Date` does |
| HolidayChecker.MonthDay | redmine_detailed_schedule_gantt/assets/javascripts/util/holiday_checker.js:33-37 | `_mmdd` is five characters with a dash in the middle |
| HolidayChecker.WalkBack | redmine_detailed_schedule_gantt/assets/javascripts/util/holiday_checker.js:74-85 | the backward walk answers true exactly when the run of listed holidays just before the day reaches a Sunday |
| HolidayChecker.IsSubstituteHoliday | redmine_detailed_schedule_gantt/assets/javascripts/util/holiday_checker.js:62-86 | true exactly for a date-shaped string naming a weekday that is not listed itself and whose run of holidays before it contains a Sunday |
| HolidayChecker.IsNonWorkingDay | redmine_detailed_schedule_gantt/assets/javascripts/util/holiday_checker.js:9-18 | true exactly for a date-shaped string that is a Saturday, a Sunday, a listed holiday or a substitute holiday; any other value is a working day |
| HolidayChecker.SubstituteFollowsHoliday | redmine_detailed_schedule_gantt/assets/javascripts/util/holiday_checker.js:74-78 | a substitute holiday always comes straight after a listed holiday |
| HolidayChecker.SubstituteIsOrdinaryWeekday | redmine_detailed_schedule_gantt/assets/javascripts/util/holiday_checker.js:66-71 | a substitute holiday is never a Saturday, a Sunday or a listed holiday |
| HolidayChecker.HolidayIgnoresYear | redmine_detailed_schedule_gantt/assets/javascripts/util/holiday_checker.js:53-56 | the list is keyed by `MM-DD`: two dates with the same month and day are holidays together |
| HolidayChecker.ToDateOfCalendarKey | redmine_detailed_schedule_gantt/assets/javascripts/util/holiday_checker.js:27-30 | for a real calendar date with a year past 99, `_toDate` reads back the date the key names |
| HolidayChecker.MonthDayOfKey | redmine_detailed_schedule_gantt/assets/javascripts/util/holiday_checker.js:33-55 | the `MM-DD` tail of a key is the `_mmdd` of its date |
| HolidayChecker.HolidayTestsAgree | redmine_detailed_schedule_gantt/assets/javascripts/util/holiday_checker.js:40-56 | on a real calendar date the string test `isHoliday` and the date test `_isHolidayDate` agree |
| HolidayChecker.ExtendRun | redmine_detailed_schedule_gantt/assets/javascripts/util/holiday_checker.js:81-84 | a holiday just before a run of holidays extends the run |
| HolidayChecker.WalkedStop | redmine_detailed_schedule_gantt/assets/javascripts/util/holiday_checker.js:81-85 | the walk stops on a Sunday holiday only if the run has a Sunday, and on a non-holiday only if it has none |
| TodayChecker.NewChecker | assets/javascripts/util/today_checker.js:2-9 | for a four-digit year the stored key is a date key naming exactly the clock's day |
| TodayChecker.SameDaySameKey | assets/javascripts/util/today_checker.js:19-24 | two date keys naming the same day are the same string |
| TodayChecker.IsTodayExactly | assets/javascripts/util/today_checker.js:12-30 | `isToday` holds of exactly one value, the `YYYY-MM-DD` string of the day the checker was built |
| Calendar.DaysInMonth | redmine_detailed_schedule_gantt/assets/javascripts/util/day_keys_generator.js:30 | every month has 28 to 31 days |
| Calendar.Weekday | redmine_detailed_schedule_gantt/assets/javascripts/util/holiday_checker.js:45-52 | `getDay()` is between 0 (Sunday) and 6 (Saturday) |
| Calendar.NextDay | redmine_detailed_schedule_gantt/assets/javascripts/util/day_keys_generator.js:36 | `setDate(getDate() + 1)` gives the valid date one day later |
| Calendar.PrevDay | redmine_detailed_schedule_gantt/assets/javascripts/util/holiday_checker.js:74-83 | `setDate(getDate() - 1)` gives the valid date one day earlier |
| Calendar.AddDays | redmine_detailed_schedule_gantt/assets/javascripts/util/holiday_checker.js:83 | moving `k` days gives the valid date `k` day numbers away |
| Calendar.DayNumberInjective | redmine_detailed_schedule_gantt/assets/javascripts/util/day_keys_generator.js:34 | two valid dates with the same day number are the same date, so comparing dates compares day numbers |
| Calendar.AddDaysWithinMonth | redmine_detailed_schedule_gantt/assets/javascripts/util/day_keys_generator.js:36 | inside a month, moving forward only changes the day of the month |
| Calendar.MonthStart | redmine_detailed_schedule_gantt/assets/javascripts/util/day_keys_generator.js:29 | the first of a month, months counted from January of a year, is a valid date with day one |
| Calendar.MakeDate | redmine_detailed_schedule_gantt/assets/javascripts/util/day_keys_generator.js:29-30 | `new Date(y, monthIndex, day)` always gives a valid date |
| Calendar.MakeDateOfValid | redmine_detailed_schedule_gantt/assets/javascripts/util/holiday_checker.js:27-30 | on a real calendar date the constructor gives the date back |
| Calendar.MakeDateDayOne | redmine_detailed_schedule_gantt/assets/javascripts/util/day_keys_generator.js:29 | day one of a month index is the first of that month, rolled into the right year |
| Calendar.MakeDateDayZero | redmine_detailed_schedule_gantt/assets/javascripts/util/day_keys_generator.js:30 | day zero of a month is the last day of the month before |
| Calendar.ParseDateKey | app/controller/detailed_schedule_gantt_controller.rb:110 | a cast that succeeds gives a valid calendar date |
| Calendar.DateKeyRoundTrip | redmine_detailed_schedule_gantt/assets/javascripts/util/day_keys_generator.js:82-84 | the key the client formats for a date with a four-digit year is read back by the server as the same date |
| HolidayChecker.IsValidYMD | redmine_detailed_schedule_gantt/assets/javascripts/util/holiday_checker.js:22-24 | true exactly for a ten-character string with dashes at positions 4 and 7 and ASCII digits everywhere else |
| HolidayChecker.IsHolidayDate | redmine_detailed_schedule_gantt/assets/javascripts/util/holiday_checker.js:40-42 | a date is a listed holiday exactly when the `MM-DD` tail of its key is on the list, whatever its year |
| HolidayChecker.IsHoliday | redmine_detailed_schedule_gantt/assets/javascripts/util/holiday_checker.js:53-56 | only a date-shaped string can be a holiday, and then exactly when its month and day fields form a listed `MM-DD` |
| TodayChecker.Checker.IsToday | assets/javascripts/util/today_checker.js:12-30 | only the stored key itself is today; when the stored key is date-shaped, `isToday` is plain equality with it |
| IssuesSaveHandler.AttributeKey | assets/javascripts/add_setting/issues_save_handler.js:73-77 | an edit of the version column is sent as `fixed_version_id`, every other column under its own name, and a server-computed column stays one |
| IssuesSaveHandler.BucketIndex | assets/javascripts/add_setting/issues_save_handler.js:62 | `rowMap.has(row)`: the position of the row's bucket, or -1 exactly when no bucket has that row |
| IssuesSaveHandler.Record | assets/javascripts/add_setting/issues_save_handler.js:54-78 | one pass of the grouping loop: it stops the handler exactly when the change's row has no id, otherwise it updates the buckets as the specification step does |
| IssuesSaveHandler.HandleAfterChange | assets/javascripts/add_setting/issues_save_handler.js:37-80 | the handler ignores the loading, copy, merge and write-back sources and a missing change list, and otherwise ends as the grouping of the changes says |
| IssuesSaveHandler.AbortIsFinal | assets/javascripts/add_setting/issues_save_handler.js:57 | once the loop has returned, no later change revives it |
| IssuesSaveHandler.AbortsExactly | assets/javascripts/add_setting/issues_save_handler.js:54-59 | the handler returns early exactly when some change to an editable column is on a row without an issue id, wherever that change comes |
| IssuesSaveHandler.PutEffect | assets/javascripts/add_setting/issues_save_handler.js:62-77 | recording a change sets the key in its row's bucket, new or old, and leaves every other bucket alone |
| IssuesSaveHandler.BucketsFromGrid | assets/javascripts/add_setting/issues_save_handler.js:62-67 | each bucket belongs to a different row and carries the id and lock version the grid holds for that row |
| IssuesSaveHandler.BucketForRow | assets/javascripts/add_setting/issues_save_handler.js:62-68 | a row has a bucket exactly when some change to it is recorded |
| IssuesSaveHandler.AttributesOfBucket | assets/javascripts/add_setting/issues_save_handler.js:71-77 | a bucket's attributes are exactly the keys its row's recorded changes set |
| IssuesSaveHandler.LastChangeWins | assets/javascripts/add_setting/issues_save_handler.js:74-76 | each attribute holds the value of the last change that set it |
| IssuesSaveHandler.ComputedNeverSent | assets/javascripts/add_setting/issues_save_handler.js:56-74 | `lock_version`, `schedule_days`, `check_days` and `version_id` never reach a request |
| IssuesSaveHandler.ValidityIgnoresPadding | assets/javascripts/add_setting/issues_save_handler.js:162-163 | `isValid` gives the same verdict with or without surrounding white space |
| IssuesSaveHandler.AcceptedAmountIsStoredUnclamped | assets/javascripts/add_setting/issues_save_handler.js:204-247 | a non-empty effort figure the client accepts rounds to a value within 0..999.99 that the server stores without clamping |
| IssuesSaveHandler.RoundedAtMost | assets/javascripts/add_setting/issues_save_handler.js:217-240 | a non-negative decimal at most `h / 100` rounds to at most `h` hundredths |
| IssuesSaveHandler.CollectUpdates | assets/javascripts/add_setting/issues_save_handler.js:111-126 | the write-back collects exactly the `ok` results' values for keys that are not dates, nothing when the body has no results |
| IssuesSaveHandler.WriteBackIsNotSaved | assets/javascripts/add_setting/issues_save_handler.js:39-124 | the write-back's own change event is not saved again |
| IssuesSaveHandler.SaveBuckets | assets/javascripts/add_setting/issues_save_handler.js:84-151 | one request per bucket, in order, each with the bucket's id, lock version and attributes, each followed by its write-back |
| IssuesSaveHandler.WritesStayInSavedRows | assets/javascripts/add_setting/issues_save_handler.js:120 | every write goes to the row of one of the buckets sent |
| IssuesSaveHandler.WritesExactlyRow | assets/javascripts/add_setting/issues_save_handler.js:120 | the write-back of one response writes only to the row it saved |
| Grid.WriteBacksExactly | assets/javascripts/add_setting/issues_save_handler.js:116-121 | an update is written back exactly when some `ok` result with an admitted key asks for it |
| Grid.Get | assets/javascripts/add_setting/issues_save_handler.js:57 | an absent property reads as `undefined` |
| Grid.DataAt | assets/javascripts/add_setting/issues_save_handler.js:57-65 | `getDataAtRowProp` reads the property of an existing row, `undefined` outside the table |
| Grid.StartRow | redmine_detailed_schedule_gantt/assets/javascripts/add_setting/edit/paste_handler.js:106 | `Math.min` of the two selection corners: the top row, one of the two |
| Grid.EndRow | assets/javascripts/add_setting/edit/row_inserter.js:87 | `Math.max` of the two selection corners: the bottom row, one of the two |
| Js.LeadingSpaces | assets/javascripts/add_setting/issues_save_handler.js:163 | the count of leading white space, up to the first other character |
| Js.TrailingSpaces | assets/javascripts/add_setting/issues_save_handler.js:163 | the count of trailing white space, back to the last other character |
| Js.Trim | assets/javascripts/add_setting/issues_save_handler.js:163 | `trim()` keeps a slice that neither starts nor ends with white space, and everything cut off is white space |
| Js.TrimIdempotent | redmine_detailed_schedule_gantt/assets/javascripts/add_setting/projects_save_handler.js:140 | trimming twice trims nothing more |
| Js.Positional | redmine_detailed_schedule_gantt/assets/javascripts/add_setting/edit/paste_handler.js:133 | a number written positionally ends with a digit |
| Js.NumberText | assets/javascripts/add_setting/issues_save_handler.js:163-205 | `String(n)` of a number never ends with the point, so the trailing-point check only sees text typed by the user |
| Text.NatToString | redmine_detailed_schedule_gantt/assets/javascripts/util/day_keys_generator.js:83 | the decimal text of a natural number is non-empty, all digits, and reads back as the number |
| Text.Pad2 | redmine_detailed_schedule_gantt/assets/javascripts/util/day_keys_generator.js:83 | `padStart(2, '0')` gives two digits that read back as the number |
| Text.DigitChar | redmine_detailed_schedule_gantt/assets/javascripts/util/day_keys_generator.js:83 | a digit character reads back as its value |
| Text.Split | redmine_detailed_schedule_gantt/assets/javascripts/add_setting/edit/paste_handler.js:119-123 | `split` gives at least one piece and no piece contains the separator |
| Text.JoinSplit | redmine_detailed_schedule_gantt/assets/javascripts/add_setting/edit/paste_handler.js:119-123 | joining the pieces with the separator gives back the text |
| Text.RemoveAll | redmine_detailed_schedule_gantt/assets/javascripts/add_setting/edit/paste_handler.js:119 | `replace(/\r/g, '')` leaves no carriage return and does not lengthen the text |
| Optional.GetOr | assets/javascripts/add_setting/edit/row_inserter.js:48 | the fallback of `data.results` to an empty list: the value when present, the default otherwise |
| Hundredths.RoundMagnitude | app/models/issue_daily_schedule.rb:37 | rounding to a multiple lands within half a step, a tie going up |
| Hundredths.Round2 | app/models/issue_daily_schedule.rb:37 | `round(2)` gives the nearest hundredth, a tie rounded away from zero, exact when there are at most two decimals, and keeps the sign |
| Hundredths.NormalizedInRange | app/models/issue_daily_schedule.rb:34-40 | the normalised value is unique and always passes the validation `0 <= v <= 999.99` |
| Hundredths.NormalizedStable | app/models/issue_daily_schedule.rb:34-40 | a stored value saved again is left as it is |
| Hundredths.NormalizedUnderReports | app/models/issue_daily_schedule.rb:39 | when the rounded value exceeds the cap, the stored value is strictly below it |
| Js.Utf16Units | assets/javascripts/add_setting/issues_save_handler.js:189 | a character takes one UTF-16 code unit, two exactly when it lies beyond the Basic Multilingual Plane |
| Js.Utf16Length | assets/javascripts/add_setting/issues_save_handler.js:189 | `length` counts at least one and at most two code units per character |
| Js.Utf16LengthAppend | assets/javascripts/add_setting/issues_save_handler.js:189 | the length of a concatenation is the sum of the lengths |
| Js.Utf16LengthUniform | assets/javascripts/add_setting/issues_save_handler.js:189 | a text inside the Basic Multilingual Plane has one code unit per character, a text beyond it two |
| IssuesSaveHandler.IsValid | assets/javascripts/add_setting/issues_save_handler.js:162-250 | an accepted subject is non-empty and at most 255 code units after trimming; an accepted estimate is a finite number from 0 to 999.99; a column with no rule of its own and not a date is always accepted |
| IssuesSaveHandler.AstralTextTooLong | assets/javascripts/add_setting/issues_save_handler.js:183-200 | 128 characters beyond the Basic Multilingual Plane already make a subject or a description too long |
| IssuesSaveHandler.PlaneTextFitsDescription | assets/javascripts/add_setting/issues_save_handler.js:196-200 | up to 255 characters of the Basic Multilingual Plane are always an acceptable description |
| ProjectsSaveHandler.KeptIsEstimate | redmine_detailed_schedule_gantt/assets/javascripts/add_setting/projects_save_handler.js:57-171 | only an edit of the estimate gets past the skips, with a finite non-negative amount of at most 99999.99 that does not end in `.` |
| ProjectsSaveHandler.OpenedMeans | redmine_detailed_schedule_gantt/assets/javascripts/add_setting/projects_save_handler.js:65 | `rowMap.has(row)` holds exactly when some bucket is for that row |
| ProjectsSaveHandler.Record | redmine_detailed_schedule_gantt/assets/javascripts/add_setting/projects_save_handler.js:55-70 | one pass of the loop: it stops the handler exactly when the change would return, otherwise it opens the row's bucket as the specification step does |
| ProjectsSaveHandler.HandleAfterChange | redmine_detailed_schedule_gantt/assets/javascripts/add_setting/projects_save_handler.js:36-73 | the handler ignores the loading, copy, merge and write-back sources and a missing change list, and otherwise ends as the collection of edited project rows says |
| ProjectsSaveHandler.Handle | redmine_detailed_schedule_gantt/assets/javascripts/add_setting/projects_save_handler.js:36-73 | the same loop, with the value checks given as a parameter |
| ProjectsSaveHandler.StopIsFinal | redmine_detailed_schedule_gantt/assets/javascripts/add_setting/projects_save_handler.js:62 | once the loop has returned, no later change revives it |
| ProjectsSaveHandler.StopsExactly | redmine_detailed_schedule_gantt/assets/javascripts/add_setting/projects_save_handler.js:55-62 | the handler returns early exactly when some change that passes the skips is on a row with an issue id |
| ProjectsSaveHandler.BucketsOfEditedRows | redmine_detailed_schedule_gantt/assets/javascripts/add_setting/projects_save_handler.js:65-70 | each bucket is for a different row and carries the project id and estimate the grid holds; a row has a bucket exactly when a change to it passes the skips |
| ProjectsSaveHandler.Payloads | redmine_detailed_schedule_gantt/assets/javascripts/add_setting/projects_save_handler.js:86-89 | one body per bucket, in order, with the project id and the estimate |
| ProjectsSaveHandler.Successes | redmine_detailed_schedule_gantt/assets/javascripts/add_setting/projects_save_handler.js:107 | at most one reload per request |
| ProjectsSaveHandler.SaveRows | redmine_detailed_schedule_gantt/assets/javascripts/add_setting/projects_save_handler.js:75-131 | one request per bucket in order; each success writes back its results and reloads, each failure is only reported |
| ProjectsSaveHandler.Send | redmine_detailed_schedule_gantt/assets/javascripts/add_setting/projects_save_handler.js:91-107 | a success gives its write-back and a reload; a failure gives neither |
| ProjectsSaveHandler.WriteResults | redmine_detailed_schedule_gantt/assets/javascripts/add_setting/projects_save_handler.js:95-102 | one write per `ok` result, for any key |
| ProjectsSaveHandler.BareResultsWriteNothing | redmine_detailed_schedule_gantt/assets/javascripts/add_setting/projects_save_handler.js:97-100 | the server answers with bare values, never `{ok, value}` objects, so the write-back writes nothing and only the reload shows the new figures |
| PasteHandler.KeptLines | redmine_detailed_schedule_gantt/assets/javascripts/add_setting/edit/paste_handler.js:119-121 | the kept lines hold no line feed or carriage return |
| PasteHandler.ParsedCellsAreClean | redmine_detailed_schedule_gantt/assets/javascripts/add_setting/edit/paste_handler.js:117-124 | no parsed cell holds a tab, a line feed or a carriage return |
| PasteHandler.SplitPiecesAreInside | redmine_detailed_schedule_gantt/assets/javascripts/add_setting/edit/paste_handler.js:123 | every character of a piece of a split is a character of the text |
| PasteHandler.ParseRoundTrip | redmine_detailed_schedule_gantt/assets/javascripts/add_setting/edit/paste_handler.js:117-124 | parsing loses nothing but the carriage returns and one final line feed: writing the matrix back gives the text without them |
| PasteHandler.DroppedLastLine | redmine_detailed_schedule_gantt/assets/javascripts/add_setting/edit/paste_handler.js:121 | when the last piece is empty, the text is empty or the other pieces followed by a line feed |
| PasteHandler.KeptLastLine | redmine_detailed_schedule_gantt/assets/javascripts/add_setting/edit/paste_handler.js:121 | when the last piece is not empty, the text is all pieces joined and does not end with a line feed |
| PasteHandler.UnparseKeptLines | redmine_detailed_schedule_gantt/assets/javascripts/add_setting/edit/paste_handler.js:123 | joining each row's cells with tabs and the rows with line feeds gives the kept lines |
| PasteHandler.MaxLen | redmine_detailed_schedule_gantt/assets/javascripts/add_setting/edit/paste_handler.js:128 | the longest row's length: no row is longer and, for a non-empty matrix, some row is that long |
| PasteHandler.RectifiedShape | redmine_detailed_schedule_gantt/assets/javascripts/add_setting/edit/paste_handler.js:127-137 | the row count is kept, every row is as long as the longest and at least one cell, each cell keeps its place and a missing one becomes `''` |
| PasteHandler.RectifiedKeepsRectangle | redmine_detailed_schedule_gantt/assets/javascripts/add_setting/edit/paste_handler.js:127-137 | a rectangular matrix with at least one column comes back unchanged |
| PasteHandler.RectifyAndSanitize | redmine_detailed_schedule_gantt/assets/javascripts/add_setting/edit/paste_handler.js:127-137 | the cell-by-cell loop builds exactly the rectified matrix |
| PasteHandler.Prefix | redmine_detailed_schedule_gantt/assets/javascripts/add_setting/edit/paste_handler.js:166 | `slice(0, n)` is the first `min(n, length)` cells |
| PasteHandler.OrBlank | redmine_detailed_schedule_gantt/assets/javascripts/add_setting/edit/paste_handler.js:142-144 | empty data becomes `[['']]`, so something is always pasted |
| PasteHandler.PlaceOutside | redmine_detailed_schedule_gantt/assets/javascripts/add_setting/edit/paste_handler.js:153-157 | a start outside the table writes nothing, and only such a start |
| PasteHandler.PlaceClipsToTable | redmine_detailed_schedule_gantt/assets/javascripts/add_setting/edit/paste_handler.js:150-176 | otherwise the block starts at the start cell, ends inside the table as far as the data reaches, and is the top-left part of the data of that size |
| PasteHandler.PlaceNothing | redmine_detailed_schedule_gantt/assets/javascripts/add_setting/edit/paste_handler.js:142-176 | pasting nothing writes one empty cell at the start |
| PasteHandler.PlaceWhole | redmine_detailed_schedule_gantt/assets/javascripts/add_setting/edit/paste_handler.js:150-176 | a rectangular block that fits is pasted whole |
| PasteHandler.Anchor | redmine_detailed_schedule_gantt/assets/javascripts/add_setting/edit/paste_handler.js:105-107 | the anchor is the selection's top-left corner, one of its two rows and one of its two columns |
| PasteHandler.ProcessedAtAnchor | redmine_detailed_schedule_gantt/assets/javascripts/add_setting/edit/paste_handler.js:93-114 | a paste lands at the first selection's top-left corner and never writes more rows than the text has lines |
| PasteHandler.PasteHandler.SetIsEdit | redmine_detailed_schedule_gantt/assets/javascripts/add_setting/edit/paste_handler.js:20-22 | the edit flag is set |
| PasteHandler.PasteHandler.ProcessPasteEvent | redmine_detailed_schedule_gantt/assets/javascripts/add_setting/edit/paste_handler.js:57-65 | a missing clipboard text does nothing; any other text, the empty one included, is processed |
| PasteHandler.PasteHandler.HandlePaste | redmine_detailed_schedule_gantt/assets/javascripts/add_setting/edit/paste_handler.js:45-54 | an unusable clipboard alerts; outside edit mode nothing happens; in edit mode the text is processed |
| PasteHandler.PasteHandler.HandleKeyboardPaste | redmine_detailed_schedule_gantt/assets/javascripts/add_setting/edit/paste_handler.js:32-42 | only Ctrl+V or Cmd+V is a paste, then as for the paste event |
| PasteHandler.ParsePastedText | redmine_detailed_schedule_gantt/assets/javascripts/add_setting/edit/paste_handler.js:117-124 | one row per kept line, each with at least one cell |
| PasteHandler.ParsedLineRoundTrip | redmine_detailed_schedule_gantt/assets/javascripts/add_setting/edit/paste_handler.js:117-124 | each row's cells joined by tabs again are the line it was read from |
| PasteHandler.Rectified | redmine_detailed_schedule_gantt/assets/javascripts/add_setting/edit/paste_handler.js:127-137 | the row count is kept, every row is as long as the longest and no shorter than before, each cell keeps its place and the padding is `''` |
| PasteHandler.Place | redmine_detailed_schedule_gantt/assets/javascripts/add_setting/edit/paste_handler.js:140-177 | nothing is written exactly when the start is outside the table; otherwise the block starts at the start cell and ends inside the table |
| DragHandler.ColumnDelta | assets/javascripts/add_setting/drag_handler.js:184-186 | `Math.round(deltaX / DAY_COLUMN_WIDTH)`: the nearest number of day columns, a half rounded up |
| DragHandler.DropColumn | assets/javascripts/add_setting/drag_handler.js:212-220 | the left handle stops at the first day column, the other handles at the last column; otherwise the column moves by the delta |
| DragHandler.PreviewIsOneColumnLeft | assets/javascripts/add_setting/drag_handler.js:189-220 | the preview column is the drop column computed one column further left |
| DragHandler.NewRangeBySide | assets/javascripts/add_setting/drag_handler.js:247-258 | the left handle moves only the start, the right handle only the end, the centre handle both while keeping the length |
| DragHandler.DragMovesByDelta | assets/javascripts/add_setting/drag_handler.js:212-258 | dragged by `delta` columns without reaching a clamp, the left handle moves the start by `delta`, the right one the end and the centre one both |
| DragHandler.PreviewLooserThanDrop | assets/javascripts/add_setting/drag_handler.js:261-386 | the preview admits every range the drop admits, and also a start on the last fixed column, which the drop refuses |
| DragHandler.MilestoneRowIndex | assets/javascripts/add_setting/drag_handler.js:271-274 | `findIndex` gives the first milestone row of the version, or -1 when there is none |
| DragHandler.ProjectControlRowIndex | assets/javascripts/add_setting/drag_handler.js:277-280 | `findIndex` gives the first control row of the project, or -1 when there is none |
| DragHandler.CellAtRow | assets/javascripts/add_setting/drag_handler.js:236-238 | `find` gives a merged cell on the row, or nothing when no cell is on it |
| DragHandler.TargetCellRow | assets/javascripts/add_setting/drag_handler.js:236-244 | the drop's target is the merged cell on the version's first milestone row or, when that row has none, on the project's first control row |
| DragHandler.ShowMergePreview | assets/javascripts/add_setting/drag_handler.js:353-398 | a preview rectangle is on the preview row and spans the range the preview check admits |
| DragHandler.PreviewCellAgreesWithDrop | assets/javascripts/add_setting/drag_handler.js:236-360 | the preview and the drop use the same merged cell, except when the version's milestone row has none: the drop falls back to the control row, the preview shows nothing |
| DragHandler.Route | assets/javascripts/add_setting/drag_handler.js:310-317 | a version's dates are sent when the version id is not nullish, the project's otherwise, with the start and end dates unchanged |
| DragHandler.DropRequest | assets/javascripts/add_setting/drag_handler.js:246-307 | a request is sent only for a found bar, a range the check admits and columns inside the day keys, with the keys of the new start and end columns |
| DragHandler.OneDayRangeNeverSent | assets/javascripts/add_setting/drag_handler.js:261 | a range whose start column equals its end column is never sent |
| DragHandler.IncreasingKeysNotReversed | assets/javascripts/add_setting/drag_handler.js:291 | two increasing day keys are never in reversed order |
| DragHandler.AdmittedRangeIsSent | assets/javascripts/add_setting/drag_handler.js:286-298 | with increasing day keys, an admitted range inside the keys is always sent: the reversed-dates alert cannot fire |
| DragHandler.DragListener.MouseDown | assets/javascripts/add_setting/drag_handler.js:166-178 | dragging starts, remembering the mouse position and the column, only in edit mode |
| DragHandler.DragListener.MouseMove | assets/javascripts/add_setting/drag_handler.js:181-201 | while dragging, the preview for the column one left of the drop column; nothing otherwise |
| DragHandler.DragListener.MouseUp | assets/javascripts/add_setting/drag_handler.js:204-229 | a drag in progress ends in the drop's update with the drop column; the drag is over either way |
| DragHandler.NewRange | assets/javascripts/add_setting/drag_handler.js:247-258 | the left and centre handles start at the drop column, the right one keeps the start; the left handle keeps the end, the others end a bar's length after the drop column |
| DragHandler.DropAccepted | assets/javascripts/add_setting/drag_handler.js:261 | a range the drop admits is admitted by the preview too and spans at least two columns |
| DragHandler.PreviewAccepted | assets/javascripts/add_setting/drag_handler.js:384-386 | a range the preview admits starts before its end, on a day column or on the last fixed column |
| DragHandler.TargetCell | assets/javascripts/add_setting/drag_handler.js:236-244 | a target is one of the merged cells, on the version's milestone row or the project's control row; there is none exactly when neither row has a cell |
| DragHandler.UpdateDates | assets/javascripts/add_setting/drag_handler.js:282-306 | never nothing: the column alert exactly when a column is outside the day keys, otherwise a request with the two columns' keys, never reversed, followed by the reload, or the reversed-dates alert |
| HeaderGenerator.StaticHeader | assets/javascripts/create_gantt_spreadsheet/header_generator.js:37-50 | one header cell per static title |
| HeaderGenerator.GenerateHeaders | assets/javascripts/create_gantt_spreadsheet/header_generator.js:35-77 | with no day keys only the empty object; otherwise a month row of the twelve titles and one entry per month span, and a day row and a weekday row of twelve blanks and one entry per day key, in day-key order |
| HeaderGenerator.ColspansOfMonths | assets/javascripts/create_gantt_spreadsheet/header_generator.js:60-62 | the month entries' colspans add up to the spans' total |
| HeaderGenerator.MonthsSpanDayColumns | assets/javascripts/create_gantt_spreadsheet/header_generator.js:60-75 | for a period the day-keys generator produced, the month entries span exactly the day columns and every header row is as wide as the widths list |
| HeaderGenerator.LabelsOfFormattedKey | assets/javascripts/create_gantt_spreadsheet/header_generator.js:66-74 | a key formatted from a date is labelled with that date's day of the month and its weekday name |
| ColumnWidthsManager.ColumnWidths | assets/javascripts/create_gantt_spreadsheet/column_widths_manager.js:24-27 | the static widths unchanged, then the day width once per day key |
| ColumnWidthsManager.DayColumnWidth | assets/javascripts/create_gantt_spreadsheet/column_widths_manager.js:24-27 | the static widths cover exactly the columns before `COL_FIRST_DAY`, so day key `i` gets the day width |
| ColumnConfigurator.DateColumns | assets/javascripts/create_gantt_spreadsheet/column_configurator.js:50-54 | one editable numeric column per day key, in order |
| ColumnConfigurator.AllColumnConfig | assets/javascripts/create_gantt_spreadsheet/column_configurator.js:26-28 | the thirteen static columns, then the date columns |
| ColumnConfigurator.StaticColumnsShape | assets/javascripts/create_gantt_spreadsheet/column_configurator.js:31-47 | exactly the server-filled columns are read-only, none of them a select box, and `done_ratio` offers 0 to 100 in steps of ten |
| ColumnConfigurator.StaticColumnCountMismatch | assets/javascripts/create_gantt_spreadsheet/column_configurator.js:31-47 | the configuration has one static column more than the widths and headers: the column at `COL_FIRST_DAY` is `check_days` and each day key is configured one column further right |
| DataTransformer.TransformIssueToRow | assets/javascripts/util/data_transformer.js:22-42 | the row has the listed properties, the daily keys and `color_id`; a daily key overrides a listed property of the same name, and `color_id` comes from the issue |
| DataTransformer.RowKeepsIssueIdentity | assets/javascripts/util/data_transformer.js:24-39 | a row carries the issue's id, lock version and daily efforts when no daily key shadows them |
| UserTotalDaysGenerator.TallyRow | assets/javascripts/create_gantt_spreadsheet/user_total_days_generator.js:13-27 | each user's row is assigned to the user, has null id, project and lock version, and is marked as a tally row |
| UserTotalDaysGenerator.TallyRows | assets/javascripts/create_gantt_spreadsheet/user_total_days_generator.js:13-27 | one row per user, in order |
| UserTotalDaysGenerator.FirstRowOf | assets/javascripts/create_gantt_spreadsheet/user_total_days_generator.js:32 | `find` gives the first row assigned to the user, or none |
| UserTotalDaysGenerator.MergeTotal | assets/javascripts/create_gantt_spreadsheet/user_total_days_generator.js:32-35 | one total changes no row count |
| UserTotalDaysGenerator.Generate | assets/javascripts/create_gantt_spreadsheet/user_total_days_generator.js:11-38 | the users' rows, then every total written into its user's first row, in payload order |
| UserTotalDaysGenerator.MergeKeepsUsers | assets/javascripts/create_gantt_spreadsheet/user_total_days_generator.js:34 | writing totals never changes which user a row belongs to |
| UserTotalDaysGenerator.LastLanding | assets/javascripts/create_gantt_spreadsheet/user_total_days_generator.js:31-36 | the last total that lands in a given row under a given date, if any |
| UserTotalDaysGenerator.MergedCell | assets/javascripts/create_gantt_spreadsheet/user_total_days_generator.js:31-36 | every cell: the last total filed for the row's user under that date wins, a date no total names keeps the row's value |
| UserTotalDaysGenerator.UnknownUserIgnored | assets/javascripts/create_gantt_spreadsheet/user_total_days_generator.js:33 | a total whose user has no row changes nothing |
| UserTotalDaysGenerator.LaterRowUntouched | assets/javascripts/create_gantt_spreadsheet/user_total_days_generator.js:32 | a row that is not its user's first row never receives a total |
| UserTotalDaysGenerator.FirstRowOfSameUsers | assets/javascripts/create_gantt_spreadsheet/user_total_days_generator.js:32 | rows assigned to the same users give the same first row |
| MergeCells.StartIndex | assets/javascripts/create_gantt_spreadsheet/project_control_rows_generator.js:62 | -1, or an index whose date is on or after the start |
| MergeCells.StartIndexIsFirst | assets/javascripts/create_gantt_spreadsheet/project_control_rows_generator.js:62 | no key before the start index has a date on or after the start, and none at all when it is -1 |
| MergeCells.EndIndex | assets/javascripts/create_gantt_spreadsheet/project_control_rows_generator.js:63-66 | -1, or an index whose date is on or before the end |
| MergeCells.EndIndexIsLast | assets/javascripts/create_gantt_spreadsheet/project_control_rows_generator.js:63-66 | no key after the end index has a date on or before the end |
| MergeCells.IndexRange | assets/javascripts/create_gantt_spreadsheet/project_control_rows_generator.js:62-66 | over increasing day keys, an index lies between the start and end indices exactly when its date lies between the start and end dates |
| MergeCells.MarkRow | assets/javascripts/create_gantt_spreadsheet/project_control_rows_generator.js:51-78 | one pass of the row loop, with a start index of -1 leaving the row alone: the marked row and the row's merged cell, if any |
| MergeCells.MarkAndMerge | assets/javascripts/create_gantt_spreadsheet/project_control_rows_generator.js:48-82 | every row of the array marked in place and the merged cells of all rows in row order, with the start-index guard corrected |
| MergeCells.PlanCellsStep | assets/javascripts/create_gantt_spreadsheet/project_control_rows_generator.js:51-78 | the cells of a prefix grow by exactly the next row's own cell |
| MergeCells.CellsInRowOrder | assets/javascripts/create_gantt_spreadsheet/project_control_rows_generator.js:51-79 | at most one cell per row, on distinct rows in row order |
| MergeCells.CellsShape | assets/javascripts/create_gantt_spreadsheet/project_control_rows_generator.js:69-78 | each cell belongs to a spanned row, is on a distinct row in row order, one row high, at least one column wide, and lies inside the day columns |
| MergeCells.CellsOfRows | assets/javascripts/create_gantt_spreadsheet/project_control_rows_generator.js:51-78 | a cell is in the list exactly when it is its own row's cell |
| MergeCells.PeriodAfterLast | assets/javascripts/create_gantt_spreadsheet/project_control_rows_generator.js:62-66 | a period after the last day key gives start index -1 and the last index as end index |
| MergeCells.PeriodAfterLastKey | assets/javascripts/create_gantt_spreadsheet/project_control_rows_generator.js:62-78 | as written, a spanned row whose period lies after the last day key gets a cell covering `check_days` and every day column, and a `'1'` under the property `"undefined"`; corrected, it gets neither |
| MergeCells.CellCoversPeriod | assets/javascripts/create_gantt_spreadsheet/project_control_rows_generator.js:62-78 | over increasing day keys, a row's cell covers exactly the day columns whose day lies within the period, and there is none when no day key does |
| ProjectControlRowsGenerator.ControlRowLiteral | assets/javascripts/create_gantt_spreadsheet/project_control_rows_generator.js:23-36 | the literal has exactly the twelve listed properties |
| ProjectControlRowsGenerator.ProjectControlRowsGenerator.constructor | assets/javascripts/create_gantt_spreadsheet/project_control_rows_generator.js:12-14 | keeps the day keys |
| ProjectControlRowsGenerator.ProjectControlRowsGenerator.Generate | assets/javascripts/create_gantt_spreadsheet/project_control_rows_generator.js:20-42 | one control row per project, in order |
| ProjectControlRowsGenerator.ProjectControlRowsGenerator.GetMergeCells | assets/javascripts/create_gantt_spreadsheet/project_control_rows_generator.js:48-82 | marks every spanned control row in place and returns their cells in row order, with the start-index guard corrected |
| ProjectControlRowsGenerator.ControlRowFields | assets/javascripts/create_gantt_spreadsheet/project_control_rows_generator.js:23-36 | the row holds the project's id, identifier, name and day counts, its project start and end dates, and the control-row flag |
| ProjectControlRowsGenerator.ControlRowMarkers | assets/javascripts/create_gantt_spreadsheet/project_control_rows_generator.js:37-38 | besides the literal's properties only the two `'1'` markers, keyed by the project's `start_date` and `end_date` |
| ProjectControlRowsGenerator.ControlRowSpanned | assets/javascripts/create_gantt_spreadsheet/project_control_rows_generator.js:33-53 | a control row gets a merged cell exactly when its project has a start and an end date |
| MilestoneRowsGenerator.MilestoneRowLiteral | assets/javascripts/create_gantt_spreadsheet/milestone_rows_generator.js:22-34 | the literal has exactly the eleven listed properties |
| MilestoneRowsGenerator.MilestoneRowsGenerator.constructor | assets/javascripts/create_gantt_spreadsheet/milestone_rows_generator.js:12-14 | keeps the day keys |
| MilestoneRowsGenerator.MilestoneRowsGenerator.Generate | assets/javascripts/create_gantt_spreadsheet/milestone_rows_generator.js:19-40 | one milestone row per version, in order |
| MilestoneRowsGenerator.MilestoneRowsGenerator.GetMergeCells | assets/javascripts/create_gantt_spreadsheet/milestone_rows_generator.js:46-80 | marks every spanned milestone row in place and returns their cells in row order, with the start-index guard corrected |
| MilestoneRowsGenerator.MilestoneRowFields | assets/javascripts/create_gantt_spreadsheet/milestone_rows_generator.js:22-34 | the row holds the version's id, project, name and dates, `'-'` in the three amount columns and the milestone flag |
| MilestoneRowsGenerator.MilestoneRowMarkers | assets/javascripts/create_gantt_spreadsheet/milestone_rows_generator.js:35-36 | besides the literal's properties only the two `'1'` markers, keyed by the start and effective dates |
| MilestoneRowsGenerator.MilestoneRowSpanned | assets/javascripts/create_gantt_spreadsheet/milestone_rows_generator.js:31-51 | a milestone row gets a merged cell exactly when its version has a start and an effective date |
| CreateHandsontable.Blanked | assets/javascripts/create_gantt_spreadsheet/create_handsontable.js:150-155 | a change never writes `null` afterwards; only a `null` new value changes, to `''` |
| CreateHandsontable.BlankedIdempotent | assets/javascripts/create_gantt_spreadsheet/create_handsontable.js:150-155 | blanking twice is blanking once |
| CreateHandsontable.NullReplaceEmpty | assets/javascripts/create_gantt_spreadsheet/create_handsontable.js:145-157 | every change of the list blanked in place; a missing list is left alone |
| CreateHandsontable.BuiltCellsBelongToTheirRows | assets/javascripts/create_gantt_spreadsheet/create_handsontable.js:127-129 | the control pass's cells come first, each on a control row; then the milestone pass's, each on a milestone row |
| CreateHandsontable.CreateHandsontable.constructor | assets/javascripts/create_gantt_spreadsheet/create_handsontable.js:17-25 | keeps the two row generators |
| CreateHandsontable.CreateHandsontable.CreateSheet | assets/javascripts/create_gantt_spreadsheet/create_handsontable.js:93-129 | the grid holds the data marked in place by both merge passes, and both passes' cells |
| CreateHandsontable.CreateHandsontable.Initialize | assets/javascripts/create_gantt_spreadsheet/create_handsontable.js:28-78 | an empty issue list gives the placeholder, a missing one throws, otherwise the main grid over control, milestone and issue rows and the footer over the users' totals |
| MergeCells.MarkAll | assets/javascripts/create_gantt_spreadsheet/project_control_rows_generator.js:51-68 | every row is kept, a row the pass does not span unchanged, and no property other than a day key changes |
| PasteHandler.Processed | redmine_detailed_schedule_gantt/assets/javascripts/add_setting/edit/paste_handler.js:93-114 | nothing is placed exactly when no cell is selected; otherwise the data is placed from the top-left corner of the first selection |
| DragHandler.PreviewColumn | assets/javascripts/add_setting/drag_handler.js:186-197 | the left edge moves by the dragged columns but never left of the first day column; the right edge and the centre move likewise but never past the last column |
| DragHandler.PreviewRow | assets/javascripts/add_setting/drag_handler.js:357-359 | the version's milestone row when there is one; otherwise the project's control row, and -1 exactly when neither exists |
| DragHandler.UpdateMergeCell | assets/javascripts/add_setting/drag_handler.js:233-307 | no merged cell on either row does nothing; otherwise the drop does nothing exactly when the new range is not accepted, and raises the column alert exactly when an accepted range ends past the day keys |
| ProjectsSaveHandler.ProjectValid | redmine_detailed_schedule_gantt/assets/javascripts/add_setting/projects_save_handler.js:139-171 | in both directions: only the estimate passes, exactly when its trimmed text is non-empty, does not end in `.`, reads as a finite number, and lies between 0 and 99999.99 |
| ProjectControlRowsGenerator.ControlRow | assets/javascripts/create_gantt_spreadsheet/project_control_rows_generator.js:22-37 | the row holds the literal's properties plus the two named by the project's start and end dates, both `'1'`, every other literal property as the literal has it |
| MilestoneRowsGenerator.MilestoneRow | assets/javascripts/create_gantt_spreadsheet/milestone_rows_generator.js:21-36 | the row holds the literal's properties plus the two named by the version's start and effective dates, both `'1'`, every other literal property as the literal has it |
| ReloadManager.RowsData | assets/javascripts/util/reload_manager.js:133-178 | the control rows, then the milestone rows, then the issue rows, each group in payload order and nothing else |
| ReloadManager.Rebuilt | assets/javascripts/util/reload_manager.js:88-190 | nothing is rebuilt exactly when the payload has no `versions`; otherwise the main grid shows the rows and merged cells built from the payload and the footer one row per user |
| CreateHandsontable.InitialRows | assets/javascripts/create_gantt_spreadsheet/create_handsontable.js:63-68 | the control rows, then the milestone rows, then the issue rows, each group in page order and nothing else |
| CreateHandsontable.Built | assets/javascripts/create_gantt_spreadsheet/create_handsontable.js:93-130 | one grid row per data row; only day-key properties change, and a row neither pass spans is unchanged |
| HeaderGenerator.MonthText | assets/javascripts/create_gantt_spreadsheet/header_generator.js:61 | ends in `月`, after the month's digits, or is `NaN月` without a date |
| HeaderGenerator.DayText | assets/javascripts/create_gantt_spreadsheet/header_generator.js:66 | `NaN` exactly for a key that is not a date, otherwise the digits of its day of the month |
| HeaderGenerator.WeekText | assets/javascripts/create_gantt_spreadsheet/header_generator.js:52-74 | `undefined` exactly for a key that is not a date, otherwise one of the seven weekday labels |
| ChangeRowColor.ColorId | assets/javascripts/add_setting/edit/change_row_color.js:20-34 | each of the four commands sends its own colour constant, and no two send the same one |
| MergeCells.CellOfAsWritten | assets/javascripts/create_gantt_spreadsheet/project_control_rows_generator.js:62-78 | as written: a spanned row gets a one-row cell exactly when its start index is at most its end index, a start index of -1 included, which puts the cell one column left of the first day column |
| MergeCells.MarkedRowAsWritten | assets/javascripts/create_gantt_spreadsheet/project_control_rows_generator.js:68 | as written: an unspanned row is unchanged, and a spanned row with no key on or after its start gets its `'1'` under `"undefined"`; no other property changes |
| MergeCells.CellOf | assets/javascripts/create_gantt_spreadsheet/project_control_rows_generator.js:62-78 | a spanned row gets a one-row cell inside the day columns exactly when its start index is found and is at most its end index, and then it is the cell the code computes |
| MergeCells.MarkedRow | assets/javascripts/create_gantt_spreadsheet/project_control_rows_generator.js:62-68 | a spanned row whose start index is found gets `'1'` under that day key, as the code marks it; any other row is unchanged; no property outside the day keys changes |
| ReloadManager.ReloadTallyRow | assets/javascripts/util/reload_manager.js:57-70 | the first build's tally row without its `project_id` |
| ReloadManager.FreshTallyRows | assets/javascripts/util/reload_manager.js:57-70 | one reload tally row per user, in order |
| ReloadManager.BuildTallyRows | assets/javascripts/util/reload_manager.js:57-77 | the fresh tally rows with every total written into its user's first row |
| ReloadManager.MergeTotalsAgreeExcept | assets/javascripts/util/reload_manager.js:73-77 | writing the same totals into rows that differ only in a property other than the user column keeps them differing only there |
| ReloadManager.UpdateAgreesExcept | assets/javascripts/util/reload_manager.js:76 | writing one property into two rows that differ only in another keeps them so |
| ReloadManager.TallyMatchesFirstBuild | assets/javascripts/util/reload_manager.js:57-77 | the footer a reload builds equals the first build's except for `project_id` |
| ReloadManager.ReloadControlRow | assets/javascripts/util/reload_manager.js:137-155 | the reload's control row is exactly the first build's |
| ReloadManager.ReloadMilestoneLiteral | assets/javascripts/util/reload_manager.js:160-172 | the reload's milestone literal is exactly the first build's |
| ReloadManager.MarkersKeepFields | assets/javascripts/util/reload_manager.js:173-174 | the two markers leave every other property as it was |
| ReloadManager.ReloadMilestoneRowWithVersionDates | assets/javascripts/util/reload_manager.js:173-174 | when a version's `start_date` and `end_date` carry its start and effective dates, the reload's milestone row is the first build's |
| ReloadManager.ReloadMilestoneRowWithoutVersionDates | assets/javascripts/util/reload_manager.js:173-174 | a version without `start_date` and `end_date` gets only one marker, under `"undefined"` |
| ReloadManager.ReloadMilestoneRowSameCell | assets/javascripts/util/reload_manager.js:169-181 | whatever its markers, the reload's milestone row spans the same merged cell as the first build's |
| ReloadManager.SameCell | assets/javascripts/util/reload_manager.js:179-181 | a merged cell depends only on the flag and the two date properties |
| ReloadManager.FailedReloadThrowsAsWritten | assets/javascripts/util/reload_manager.js:89-159 | a failed fetch keeps a default without `versions`, so `data.versions.forEach` throws before either grid is updated |
| ReloadManager.FailedReloadEmptiesGrid | assets/javascripts/util/reload_manager.js:89-196 | with `versions: []` in the default, a failed fetch empties the main grid and its merged cells and resets the footer to the bare tally rows |
| ReloadManager.RebuiltCellsBelongToTheirRows | assets/javascripts/util/reload_manager.js:178-187 | the rebuilt grid's cells: the control pass's first, each on a control row; then the milestone pass's, each on a milestone row |
| ReloadManager.ReloadManager.constructor | assets/javascripts/util/reload_manager.js:15-22 | keeps the generators and the two grids' contents; the loading indicator is hidden |
| ReloadManager.ReloadManager.ReloadTallyRows | assets/javascripts/util/reload_manager.js:33-85 | only the footer changes, to the fresh tally rows with the received totals (none on a failed fetch); the indicator ends hidden |
| ReloadManager.ReloadManager.Reload | assets/javascripts/util/reload_manager.js:88-196 | with the failed-fetch default corrected to carry `versions: []`: a payload with versions replaces the issue list, the main rows and cells and the footer, and hides the indicator; one without versions throws after replacing only the issue list |
| ReloadManager.ReloadManager.MarkGrid | assets/javascripts/util/reload_manager.js:178-181 | both merge passes over the rows, control first: the doubly marked rows and both passes' cells |
| ReloadManager.BuildRows | assets/javascripts/util/reload_manager.js:133-178 | the control, milestone and issue rows of the payload, concatenated |
| ReloadManager.PushControlRows | assets/javascripts/util/reload_manager.js:136-155 | one reload control row per project, in order |
| ReloadManager.PushMilestoneRows | assets/javascripts/util/reload_manager.js:158-176 | one reload milestone row per version, in order |
| ReloadManager.Probe | assets/javascripts/util/reload_manager.js:221-239 | a failed fetch probes as `undefined`, a successful one as its `results` |
| ReloadManager.NoReloadIffUnchanged | assets/javascripts/util/reload_manager.js:199-215 | no reload happens exactly when every probe strictly equals the stamp seen first |
| ReloadManager.FailedProbesReloadOnce | assets/javascripts/util/reload_manager.js:203-239 | after a real stamp, one failed probe reloads and a second failed probe in a row does not |
| ReloadManager.UpdateWatcher.constructor | assets/javascripts/util/reload_manager.js:200 | the first stamp is the current one |
| ReloadManager.UpdateWatcher.CheckUpdate | assets/javascripts/util/reload_manager.js:202-211 | reloads exactly when the probe differs from the current stamp, which it then replaces |
| ReloadManager.UpdateWatcher.Poll | assets/javascripts/util/reload_manager.js:199-215 | over successive probes, the number of reloads and the final stamp the reference definitions give |
| SortNumberUpdater.OrderData | assets/javascripts/add_setting/sort_number_updater.js:25-36 | at most one entry per visual row |
| SortNumberUpdater.SaveSortOrder | assets/javascripts/add_setting/sort_number_updater.js:17-45 | nothing is sent in all-projects mode; otherwise the order of the visual rows |
| SortNumberUpdater.PrefixShowsTheSame | assets/javascripts/add_setting/sort_number_updater.js:27-36 | one more visual row does not change the entries of the rows before it |
| SortNumberUpdater.OrderIsVisual | assets/javascripts/add_setting/sort_number_updater.js:27-36 | entries in visual order: strictly increasing sort numbers, each one plus the visual index of a row with an id, paired with that id |
| SortNumberUpdater.EveryIssueRowOrdered | assets/javascripts/add_setting/sort_number_updater.js:27-36 | the row at visual index `v` gets sort number `v + 1` exactly when it exists and has an id |
| ReloadManager.ReloadMilestoneRow | assets/javascripts/util/reload_manager.js:160-174 | `'1'` under the version's `start_date` and `end_date` keys, every other property the milestone literal's |
| ReloadManager.ReloadManager.Rebuild | assets/javascripts/util/reload_manager.js:133-195 | builds exactly the screen `Rebuilt` describes: nothing when the payload has no `versions`, otherwise the marked main rows, both passes' merged cells and the footer tally rows |
| HotTable.Clamp | assets/javascripts/add_setting/edit/row_inserter.js:52 | an index inside the table is kept; one before it is taken as 0, one after it as the row count |
| HotTable.Blank | assets/javascripts/add_setting/edit/row_inserter.js:52 | `n` rows without any property |
| HotTable.WithIds | assets/javascripts/add_setting/edit/row_inserter.js:58-60 | row `start + i` gets id `ids[i]`; every other row keeps its contents |
| HotTable.Column | assets/javascripts/add_setting/edit/row_copier.js:38-42 | the `n` values of a property from row `start` on, in order; `undefined` outside the table |
| HotTable.SourceRows | assets/javascripts/add_setting/edit/row_deleter.js:38-40 | the `n` source rows from row `start` on, in order |
| HotTable.InsertedShape | assets/javascripts/add_setting/edit/row_inserter.js:52 | an insertion inside the table keeps the rows above, adds `n` blank rows and moves the rest down by `n` |
| HotTable.RemoveUndoesInsert | assets/javascripts/add_setting/edit/row_inserter.js:52 | removing the rows just inserted gives the table back |
| HotTable.RemovedShape | assets/javascripts/add_setting/edit/row_deleter.js:72 | a removal keeps the rows above and moves the rows after the removed ones up; no more rows go than exist |
| HotTable.NewRowsCarryIds | assets/javascripts/add_setting/edit/row_inserter.js:52-60 | inserting one row per id and writing the ids: rows above stay, new row `i` holds only `ids[i]`, old rows move below the block |
| HotTable.Table.constructor | assets/javascripts/add_setting/edit/row_inserter.js:16-17 | keeps the rows |
| HotTable.Table.Alter | assets/javascripts/add_setting/edit/row_inserter.js:52 | the rows after the insertion or removal the action names |
| HotTable.Table.GetId | assets/javascripts/add_setting/edit/row_copier.js:41 | the id of a row inside the table, `undefined` outside |
| HotTable.Table.SetIds | assets/javascripts/add_setting/edit/row_inserter.js:58-60 | the ids written into the rows from `start` on |
| RowInserter.GetSelectionInfo | assets/javascripts/add_setting/edit/row_inserter.js:82-91 | nothing exactly when there is no selection; otherwise the top and bottom rows, whichever way the selection was dragged, and the count between them |
| RowInserter.NewIssuesBesideSelection | assets/javascripts/add_setting/edit/row_inserter.js:37-60 | with one id per created issue, the new rows form one block holding the ids in order, directly above or directly below the selection, and every old row keeps its place relative to the block |
| RowInserter.PlacedIsInsertion | assets/javascripts/add_setting/edit/row_inserter.js:51-60 | placing the rows is inserting one blank row per id at the first new row and writing the ids there |
| RowInserter.RowInserter.constructor | assets/javascripts/add_setting/edit/row_inserter.js:16-21 | keeps the grid |
| RowInserter.RowInserter.InsertRows | assets/javascripts/add_setting/edit/row_inserter.js:37-76 | no selection sends nothing; otherwise `count` issues are requested; a failed request alerts and leaves the table; an answer places the new rows and refreshes |
| RowCopier.CopiesBelowSelection | assets/javascripts/add_setting/edit/row_copier.js:52-57 | the copies sit in one block directly below the selection, in the order of the returned ids; the rows after the selection move below it |
| RowCopier.RowCopier.constructor | assets/javascripts/add_setting/edit/row_copier.js:15-20 | keeps the grid |
| RowCopier.RowCopier.CollectIds | assets/javascripts/add_setting/edit/row_copier.js:35-42 | the ids of the selected rows, in order and unfiltered |
| RowCopier.RowCopier.CopyRowsBelow | assets/javascripts/add_setting/edit/row_copier.js:26-69 | no selection sends nothing; otherwise the selected ids are sent; a failed request or an answer without `results` alerts and leaves the table; an answer places the copies below the selection and refreshes |
| RowDeleter.SortedPartitions | assets/javascripts/add_setting/edit/row_deleter.js:34-59 | every row looked at lands in exactly one list; `invalidRows` is empty exactly when no row is blocked, and then `rows` is the whole range in order |
| RowDeleter.RowDeleter.constructor | assets/javascripts/add_setting/edit/row_deleter.js:15-18 | keeps the grid |
| RowDeleter.RowDeleter.Collect | assets/javascripts/add_setting/edit/row_deleter.js:34-48 | the loop's two lists are the partition of the range |
| RowDeleter.RowDeleter.DeleteSelectedRows | assets/javascripts/add_setting/edit/row_deleter.js:20-82 | a selection with a control or milestone row is refused with an alert; otherwise, once confirmed, every selected row is sent in order and a success removes exactly the selected rows |
| LegacyRowDeleter.SendsEveryKindOfRow | redmine_detailed_schedule_gantt/assets/javascripts/add_setting/edit/row_deleter.js:36-45 | this variant sends every selected row, control and milestone rows included |
| LegacyRowDeleter.AgreesWithCurrentOnIssueRows | redmine_detailed_schedule_gantt/assets/javascripts/add_setting/edit/row_deleter.js:36-50 | on selections of issue rows only, both variants send the same rows and remove the same rows |
| LegacyRowDeleter.RowDeleter.constructor | redmine_detailed_schedule_gantt/assets/javascripts/add_setting/edit/row_deleter.js:15-18 | keeps the grid |
| LegacyRowDeleter.RowDeleter.Collect | redmine_detailed_schedule_gantt/assets/javascripts/add_setting/edit/row_deleter.js:36-41 | every selected row, in order |
| LegacyRowDeleter.RowDeleter.DeleteSelectedRows | redmine_detailed_schedule_gantt/assets/javascripts/add_setting/edit/row_deleter.js:20-60 | once confirmed every selected row is sent in order, and a success removes the `count` selected rows |
| ChangeRowColor.ColorIdsDistinct | assets/javascripts/add_setting/edit/change_row_color.js:20-34 | the four commands send four different colours, and only `fillNormal` sends the uncoloured one |
| ChangeRowColor.ControlRowSendsNullId | assets/javascripts/add_setting/edit/change_row_color.js:75-80 | a selected project-control row sends a `null` issue id |
| ChangeRowColor.MilestoneRowSendsNullId | assets/javascripts/add_setting/edit/change_row_color.js:75-80 | a selected milestone row sends a `null` issue id |
| ChangeRowColor.ChangeRowColor.constructor | assets/javascripts/add_setting/edit/change_row_color.js:14-18 | keeps the grid |
| ChangeRowColor.ChangeRowColor.GetIds | assets/javascripts/add_setting/edit/change_row_color.js:68-82 | no selection throws; otherwise one id and one lock version per selected row, top to bottom |
| ChangeRowColor.ChangeRowColor.Fill | assets/javascripts/add_setting/edit/change_row_color.js:40-62 | no selection escapes before anything is sent; otherwise ids, lock versions and colour are sent, a failure alerts and an answer reloads; the table is unchanged |
| RowInserter.Placed | assets/javascripts/add_setting/edit/row_inserter.js:51-60 | one more row per created issue; with a start inside the table and one id per issue, the new rows hold exactly those ids in order |
| Schema.AsDecimal | app/controller/detailed_schedule_gantt_controller.rb:84 | a number is read as itself and `null` as nil; text is nil exactly when it is blank, and otherwise reads as zero |
| Schema.ToI | app/controller/detailed_schedule_gantt_controller.rb:210 | a missing parameter reads as zero, a present one as its value |
| Schema.IssueSafeAttributeNames | lib/redmine_detailed_schedule_gantt/patches/issue_patch.rb:15-16 | the plugin's four columns are assignable exactly for a new issue or a user who may edit the issue's attributes; Redmine's own names always are |
| Schema.Assign | app/controller/detailed_schedule_gantt_controller.rb:84 | assigning one attribute never changes the id, project or lock version, and changes only the column it names |
| Schema.AssignAll | app/controller/detailed_schedule_gantt_controller.rb:84 | assigning a list never changes the id, project or lock version |
| Schema.AssignReadBack | app/controller/detailed_schedule_gantt_controller.rb:84-93 | an assigned attribute reads back as its column stores the value |
| Schema.AssignLeavesOthers | app/controller/detailed_schedule_gantt_controller.rb:84-93 | assigning one attribute leaves every other attribute reading as before |
| Schema.AssignAllOthers | app/controller/detailed_schedule_gantt_controller.rb:84 | an attribute the list does not name reads as before |
| Schema.AssignAllReadBack | app/controller/detailed_schedule_gantt_controller.rb:84-93 | with distinct keys, every assigned attribute reads back as its column stores the value sent for it |
| Store.FindIssue | app/controller/detailed_schedule_gantt_controller.rb:39 | the first row with the id, or none exactly when no row has it |
| Store.Lookup | app/controller/detailed_schedule_gantt_controller.rb:39 | an id sent by the client finds a row exactly when it is present, non-negative and in the table |
| Store.FindIssueSameIds | app/controller/detailed_schedule_gantt_controller.rb:39 | rows that keep their ids are found where they were |
| Store.FindIssueAppend | app/controller/detailed_schedule_gantt_controller.rb:238 | appended rows are found only when the table has no row of that id |
| Store.FindIssueUnique | app/controller/detailed_schedule_gantt_controller.rb:39 | with unique ids, each row is found at its own index |
| Store.Database.constructor | db/migrate/001_create_issue_daily_schedule.rb:7-12 | every table starts empty and the issue sequence at 1 |
| Store.Database.Insert | app/controller/detailed_schedule_gantt_controller.rb:238 | the saved row takes the next id of the sequence, is appended and is found under that id |
| Store.Database.Restore | app/controller/detailed_schedule_gantt_controller.rb:242 | a rollback returns every table to the snapshot |
| IssueDailySchedule.NormalizeManDays | app/models/issue_daily_schedule.rb:34-40 | nil becomes 0, the value is rounded to hundredths, a negative value becomes 0 and one above 999.99 becomes 999.99 |
| IssueDailySchedule.NormalizedPassesValidation | app/models/issue_daily_schedule.rb:17-22 | a normalised value always passes the presence and range validation |
| IssueDailySchedule.FindEntry | app/models/issue_daily_schedule.rb:12-13 | the row of an (issue, day) pair, or none exactly when no row has that pair |
| IssueDailySchedule.UpsertEntry | app/models/issue_daily_schedule.rb:12-13 | after `find_or_initialize_by` and save, the pair's row holds the value, every other row stays, and unique pairs stay unique |
| IssueDailySchedule.IssueDayIsOneRow | app/models/issue_daily_schedule.rb:12-13 | under the uniqueness rule an issue's effort on a day is its one row's value, or zero |
| IssueDailySchedule.UpsertChangesIssueTotal | lib/redmine_detailed_schedule_gantt/patches/issue_patch.rb:33 | saving one day moves the issue's sum by exactly that day's change and no other issue's sum |
| IssueDailySchedule.UpdateUserDailySchedule | app/models/issue_daily_schedule.rb:43-62 | the assignee's stored total for the day becomes the (capped) sum of the assignee's entries that day; nothing without an assignee |
| IssueDailySchedule.SaveEntry | app/models/issue_daily_schedule.rb:25-62 | the value is normalised and valid, the pair's one row holds it, and the assignee's total for the day is rewritten |
| UserDailySchedule.RoundTotalTo2dp | redmine_detailed_schedule_gantt/app/models/user_daily_schedule.rb:25-37 | nil becomes 0, the value is rounded to hundredths and clamped to 0..999.99 |
| UserDailySchedule.StoredTotal | redmine_detailed_schedule_gantt/app/models/user_daily_schedule.rb:25-37 | a sum is stored as its normalised value |
| UserDailySchedule.StoredTotalExactness | redmine_detailed_schedule_gantt/app/models/user_daily_schedule.rb:16-21 | the stored total equals the day's true effort exactly when that effort is at most 999.99; above it the stored figure is smaller |
| UserDailySchedule.SaveTotal | app/models/issue_daily_schedule.rb:59-61 | the row of that person and day holds the stored total; no other row changes |
| GanttLatestUpdate.Touched | app/models/gantt_latest_update.rb:27-31 | the key's record is created or updated to the time, every other record stays |
| GanttLatestUpdate.TouchThenLast | app/models/gantt_latest_update.rb:17-36 | after a touch the key polls as the touch time and every other key as before |
| GanttLatestUpdate.TouchKeepsUserUnset | app/models/gantt_latest_update.rb:27-31 | touching never writes a user into a record |
| GanttLatestUpdate.LaterTouchIsNoticed | app/models/gantt_latest_update.rb:27-36 | a later touch always changes what the key polls as |
| GanttLatestUpdate.Registry.constructor | db/migrate/004_create_gantt_latest_update.rb:7-11 | the registry starts empty |
| GanttLatestUpdate.Registry.TouchFor | app/models/gantt_latest_update.rb:27-31 | the records after touching the key |
| GanttLatestUpdate.Registry.TouchProjectAndGlobal | lib/redmine_detailed_schedule_gantt/patches/issue_patch.rb:105-108 | both the project's key and the global key poll as the time afterwards |
| GanttLatestUpdate.Registry.LastFor | app/models/gantt_latest_update.rb:34-36 | the key's time exactly when it has a record, nil otherwise |
| IssuePatch.RecomputeIssue | lib/redmine_detailed_schedule_gantt/patches/issue_patch.rb:28-36 | only the issue's row changes: its scheduled total becomes the sum of its entries and its check value that minus its estimate; nothing when the issue is gone |
| IssuePatch.RecheckIssue | lib/redmine_detailed_schedule_gantt/patches/issue_patch.rb:58-65 | only the issue's check value is rewritten, from the entries' sum and the new estimate |
| IssuePatch.RecheckRestoresConsistency | lib/redmine_detailed_schedule_gantt/patches/issue_patch.rb:58-65 | if the scheduled total was right, rewriting the check value makes the issue consistent for its new estimate |
| IssuePatch.RecomputeProject | lib/redmine_detailed_schedule_gantt/patches/issue_patch.rb:39-53 | the project becomes consistent with its issues and keeps its estimate; other projects stay; nothing for a missing project |
| IssuePatch.RecomputeMovesProjectTotal | lib/redmine_detailed_schedule_gantt/patches/issue_patch.rb:50 | recomputing an issue moves its project's sum by exactly the change of that issue's total; other projects' sums stay |
| IssuePatch.DatesOf | lib/redmine_detailed_schedule_gantt/patches/issue_patch.rb:75-76 | exactly the dates of the issue's entries |
| IssuePatch.RewriteDaysResult | lib/redmine_detailed_schedule_gantt/patches/issue_patch.rb:75-101 | after the loop each of the issue's days holds the capped true total of the old and the new assignee; every other stored total stays |
| IssuePatch.ReassignmentMovesEffort | lib/redmine_detailed_schedule_gantt/patches/issue_patch.rb:68-101 | reassigning moves the issue's effort on each day from the old assignee to the new one; everyone else is unchanged |
| IssuePatch.NoEntryNoEffort | lib/redmine_detailed_schedule_gantt/patches/issue_patch.rb:75-76 | an issue has no effort on a day it has no entry for |
| IssuePatch.SameAssigneesSameTotals | lib/redmine_detailed_schedule_gantt/patches/issue_patch.rb:80-83 | person totals depend on the issues only through who is assigned |
| IssuePatch.UpsertTouchesOnePersonDay | app/models/issue_daily_schedule.rb:53-56 | saving one entry changes the true effort of nobody but the assignee on that day |
| IssuePatch.EntrySaveKeepsAccurate | app/models/issue_daily_schedule.rb:28-62 | saving an entry with its hook keeps every stored person total equal to the capped true total |
| IssuePatch.ReassignKeepsAccurate | lib/redmine_detailed_schedule_gantt/patches/issue_patch.rb:68-102 | the reassignment hook keeps the person totals accurate |
| IssuePatch.DestroyKeepsAccurate | lib/redmine_detailed_schedule_gantt/patches/issue_patch.rb:11 | destroying an issue's entries day by day keeps the person totals accurate |
| IssuePatch.UpdateScheduleDaysIfEstimatedChanged | lib/redmine_detailed_schedule_gantt/patches/issue_patch.rb:58-65 | rewrites the check value only when the estimate changed |
| IssuePatch.UpdateUserDailySchedulesIfAssignedToChanged | lib/redmine_detailed_schedule_gantt/patches/issue_patch.rb:68-102 | when the assignee changed, the old and the new assignee's totals are rewritten for every day of the issue; otherwise nothing |
| IssuePatch.UpdateScheduleAndCheckDays | lib/redmine_detailed_schedule_gantt/patches/issue_patch.rb:28-36 | the issue's totals recomputed from its entries |
| IssuePatch.UpdateProjectScheduleDaysAndCheckDays | lib/redmine_detailed_schedule_gantt/patches/issue_patch.rb:39-53 | the issue's project recomputed from its issues |
| IssuePatch.UpdateGanttLatestUpdate | lib/redmine_detailed_schedule_gantt/patches/issue_patch.rb:105-108 | the project's key and then the global key touched |
| IssuePatch.AfterUpdate | lib/redmine_detailed_schedule_gantt/patches/issue_patch.rb:21-25 | the four hooks in order: entries unchanged, ids kept, the row's check value, the person totals, the project's totals and the registry as each hook leaves them |
| IssuePatch.DestroyMovesPersonTotal | lib/redmine_detailed_schedule_gantt/patches/issue_patch.rb:11 | destroying the entries lowers the assignee's true effort on each day by the issue's effort and leaves everyone else's |
| IssuePatch.DestroyLowersProjectTotal | lib/redmine_detailed_schedule_gantt/patches/issue_patch.rb:11 | deleting an issue lowers its project's sum by the issue's scheduled total, while the stored project total is not rewritten |
| IssuePatch.DestroyDay | app/models/issue_daily_schedule.rb:29-62 | the day's row of the issue is gone and the assignee's total for that day rewritten |
| IssuePatch.DestroyIssue | lib/redmine_detailed_schedule_gantt/patches/issue_patch.rb:11 | the issue's entries, its row and its sort numbers are gone, and each of its days' totals was rewritten while the row existed |
| IssuePatch.HooksKeepAccurate | lib/redmine_detailed_schedule_gantt/patches/issue_patch.rb:21-25 | the hooks after a save keep the person totals accurate |
| IssuePatch.RunHooks | lib/redmine_detailed_schedule_gantt/patches/issue_patch.rb:21-25 | the hooks change only the saved row, keep ids unique, touch the registry, keep the person totals accurate and leave the project consistent |
| IssuePatch.SaveIssue | app/controller/detailed_schedule_gantt_controller.rb:85-86 | invalid first (422), then a stale lock version (409), then a nil in a `NOT NULL` column (500), each changing nothing; a save writes the edited row with the next lock version and a recomputed check value, runs the hooks and keeps the person totals accurate |
| ProjectPatch.ProjectSafeAttributeNames | lib/redmine_detailed_schedule_gantt/patches/project_patch.rb:11-21 | the five plugin columns are assignable exactly for a user who may `edit_project`, none otherwise |
| ProjectPatch.RecheckProject | lib/redmine_detailed_schedule_gantt/patches/project_patch.rb:28-32 | only the check value changes, to scheduled minus estimated |
| ProjectPatch.RecheckRestoresProjectConsistency | lib/redmine_detailed_schedule_gantt/patches/project_patch.rb:28-32 | a project whose scheduled total is right is consistent after the hook, whatever its estimate |
| ProjectPatch.RecheckIdempotent | lib/redmine_detailed_schedule_gantt/patches/project_patch.rb:28-32 | a second run of the hook changes nothing |
| ProjectPatch.AfterProjectUpdate | lib/redmine_detailed_schedule_gantt/patches/project_patch.rb:23-38 | the check value recomputed and the project's and the global key touched |
| ProjectPatch.SaveProject | lib/redmine_detailed_schedule_gantt/patches/project_patch.rb:23-38 | saved exactly when the row is valid and has no nil in a `NOT NULL` column; a saved row is written with its recomputed check value and the hooks; otherwise nothing changes |
| VersionPatch.VersionSafeAttributeNames | lib/redmine_detailed_schedule_gantt/patches/version_patch.rb:11-18 | `version_start_date` is assignable exactly for a user who may `manage_versions` on the version's project |
| VersionPatch.AfterVersionUpdate | lib/redmine_detailed_schedule_gantt/patches/version_patch.rb:20-28 | only the version's project key and the global key are touched |
| VersionPatch.VersionUpdateIsNoticed | lib/redmine_detailed_schedule_gantt/patches/version_patch.rb:25-28 | after a version update both keys poll as the update time and other projects' keys are unchanged |
| VersionPatch.SaveVersion | lib/redmine_detailed_schedule_gantt/patches/version_patch.rb:20-28 | a valid row is written and the registry touched; an invalid one changes nothing |
| RowUpdate.SplitAttributes | app/controller/detailed_schedule_gantt_controller.rb:56-66 | date-shaped keys go to the date part and every other key to the field part, each in request order |
| RowUpdate.SplitPartitions | app/controller/detailed_schedule_gantt_controller.rb:60-66 | every attribute lands in exactly one part, date keys in the first, and the parts together are as long as the request |
| RowUpdate.IgnoredKeys | app/controller/detailed_schedule_gantt_controller.rb:69-71 | exactly the keys of the field part the user may not assign |
| RowUpdate.ReportFields | app/controller/detailed_schedule_gantt_controller.rb:92-99 | every assigned column gets its report read back from the row; earlier reports of other keys stay |
| RowUpdate.TouchIssue | app/controller/detailed_schedule_gantt_controller.rb:103 | a stale lock version changes nothing; otherwise only the lock version advances past the client's; never a validation error |
| RowUpdate.SaveFields | app/controller/detailed_schedule_gantt_controller.rb:85-94 | an invalid row or a stale lock version changes nothing; a save writes the edited row with the next lock version and keeps the person totals accurate |
| RowUpdate.AssignFields | app/controller/detailed_schedule_gantt_controller.rb:83-100 | an assignment that changes nothing is not saved and reported as 'no change'; a real change is saved and every assigned column reported from the saved row, `check_days` too when the estimate was assigned |
| RowUpdate.SaveDay | app/controller/detailed_schedule_gantt_controller.rb:110-112 | the day's one row holds the normalised value and the person totals stay accurate |
| RowUpdate.RecomputeTotals | app/controller/detailed_schedule_gantt_controller.rb:116-118 | the issue and its project become consistent with the entries; only totals change |
| RowUpdate.ApplyDay | app/controller/detailed_schedule_gantt_controller.rb:108-120 | a key that is not a calendar date fails and changes nothing; otherwise the day is saved and the issue and its project are settled |
| RowUpdate.DayResultsKeep | app/controller/detailed_schedule_gantt_controller.rb:114-120 | a day's reports overwrite no earlier date key's report |
| RowUpdate.DateKeyIsNotATotal | app/controller/detailed_schedule_gantt_controller.rb:61-120 | a date key is never `check_days` or `schedule_days` |
| RowUpdate.DayStep | app/controller/detailed_schedule_gantt_controller.rb:108-121 | one turn of the loop saves the day, recomputes and extends the reports by that day |
| RowUpdate.ApplyDays | app/controller/detailed_schedule_gantt_controller.rb:107-122 | the loop succeeds exactly when every key is a calendar date; then every day is reported and, once one day was saved, the issue and its project are settled |
| RowUpdate.CastAll | app/controller/detailed_schedule_gantt_controller.rb:84 | every attribute kept under its own key, in order, with its value cast for that column and so of the column's type |
| RowUpdate.Transaction | app/controller/detailed_schedule_gantt_controller.rb:77-126 | the issue part and then the date keys: invalid exactly for a changed edit that fails validation, or once the issue part went through for a date key that is not a calendar date; stale and `NOT NULL` as `issue.save!` raises them; applied exactly when the issue part goes through and every date key is a calendar date; on success ids are kept and person totals stay accurate |
| RowUpdate.UpdateRow | app/controller/detailed_schedule_gantt_controller.rb:76-150 | a changed edit that fails validation answers 422 first, then a lock version that is not the stored one answers 409 (also when no column is assigned), then a nil in a `NOT NULL` column answers 500, then a date key that is not a calendar date answers 422; 200 exactly when none of these happens; every failure rolls all tables back; a success keeps the lock version for an unchanged row and otherwise stores the sent one plus one, touches the URL project's key and the global key, and reports every date key |
| RowUpdate.BulkUpdateIssue | app/controller/detailed_schedule_gantt_controller.rb:38-150 | 404 exactly for a missing issue, 403 for one the user may not edit, 400 without a lock version or with no attributes; past those checks the row is answered in the order validation (422), stale lock (409), `NOT NULL` (500), a date key that is not a calendar date (422), each stated both ways, and `Done` exactly when none applies; any failure changes nothing; the answer is 200 exactly when it succeeded and no key was ignored for permission |
| IssueBatch.DeleteStep | app/controller/detailed_schedule_gantt_controller.rb:191-202 | deleting one more issue leaves the rows of neither the issues deleted before nor this one |
| IssueBatch.RemovedRowKeepsAssignees | app/controller/detailed_schedule_gantt_controller.rb:201 | with one row gone, every other issue keeps its assignee |
| IssueBatch.DestroyIssueKeepsAccurate | app/controller/detailed_schedule_gantt_controller.rb:201 | `destroy!` keeps the person totals accurate for the rows left |
| IssueBatch.DeleteOne | app/controller/detailed_schedule_gantt_controller.rb:192-201 | one destroy extends the deleted prefix and keeps the person totals accurate |
| IssueBatch.DeleteSelectedIssues | app/controller/detailed_schedule_gantt_controller.rb:185-206 | the issues are destroyed in order until the first missing one (404) or one the user may not delete (403); the ones before it stay destroyed; 200 exactly when all were |
| IssueBatch.AppendRowKeepsAccurate | app/controller/detailed_schedule_gantt_controller.rb:238 | a new row no entry refers to changes no person's total |
| IssueBatch.AppendRowKeepsTotals | app/controller/detailed_schedule_gantt_controller.rb:238 | a new row with nothing scheduled changes no project's sum |
| IssueBatch.Stamped | app/controller/detailed_schedule_gantt_controller.rb:229-239 | one saved draft per id, under that id |
| IssueBatch.StampedKeepsTotal | app/controller/detailed_schedule_gantt_controller.rb:228-245 | created rows change no project's sum |
| IssueBatch.StampedKeepsAccurate | app/controller/detailed_schedule_gantt_controller.rb:228-245 | unassigned created rows change no person's total |
| IssueBatch.InsertBlanks | app/controller/detailed_schedule_gantt_controller.rb:229-244 | all `count` drafts are saved under consecutive ids; none when the draft fails validation, or when it validates with nil in a `NOT NULL` column and the database raises |
| IssueBatch.CreateEmptyIssues | app/controller/detailed_schedule_gantt_controller.rb:209-251 | 403 without `add_issues`; 201 with a tracker and `count` consecutive new rows, each the blank with the first tracker's default status and the default priority; 500 with nothing created when that blank validates but lacks a status or priority; otherwise 422 with nothing created; no sum or person total changes |
| IssueBatch.CopyConsistentOnlyWithoutEstimate | app/controller/detailed_schedule_gantt_controller.rb:281-282 | a fresh copy is consistent exactly when its estimate is zero |
| IssueBatch.CopyableAfterAppend | app/controller/detailed_schedule_gantt_controller.rb:265 | an id that could be copied still can, from the same row, once copies were appended |
| IssueBatch.CopyOne | app/controller/detailed_schedule_gantt_controller.rb:265-290 | a copyable id appends its copy under the next id; otherwise nothing changes |
| IssueBatch.CopyEach | app/controller/detailed_schedule_gantt_controller.rb:264-291 | every id is tried in order; the failure flag and the copies saved so far are as the progress predicate says |
| IssueBatch.CopyIssues | app/controller/detailed_schedule_gantt_controller.rb:253-300 | 400 exactly for an empty list; 201 with one consecutive new id per requested issue when every id copies; any error rolls every copy back; no sum or person total changes |
| IssueBatch.ColorOne | app/controller/detailed_schedule_gantt_controller.rb:448-467 | a row the user may not edit stops the loop, a row of that colour is skipped, otherwise the row is saved with the colour (422 invalid, then 409 stale), never with a `NOT NULL` violation since the colour column allows nil |
| IssueBatch.ColorEach | app/controller/detailed_schedule_gantt_controller.rb:446-476 | 200 with every row recoloured or skipped, 409 for a stale lock version, 500 for a row the user may not edit or an invalid row (the catch-all rescue overwrites their reasons); a first row the user may not edit gives 500; every id editable and every row fitting gives 200 |
| IssueBatch.Targets | app/controller/detailed_schedule_gantt_controller.rb:424 | each id read with `to_i`, in order |
| IssueBatch.ChangeRowColor | app/controller/detailed_schedule_gantt_controller.rb:423-486 | 400 exactly for unequal list lengths, 404 for a missing issue, otherwise 409 or 500 (a first id the user may not edit gives 500) with everything rolled back, or 200 with the rows recoloured, the entries kept and both keys touched |
| GanttEndpoints.Reestimated | app/controller/detailed_schedule_gantt_controller.rb:167 | only the estimate and the check value change, the check value to scheduled minus the new estimate |
| GanttEndpoints.ReestimateKeepsConsistency | app/controller/detailed_schedule_gantt_controller.rb:167-173 | a new estimate keeps a consistent project consistent |
| GanttEndpoints.BulkUpdateProject | app/controller/detailed_schedule_gantt_controller.rb:154-182 | 404 exactly for a missing project, 403 without `edit_project`; a blank estimate answers 422 when validation fails and otherwise 500 for the `NOT NULL` column, writing nothing; an unchanged estimate writes nothing; a changed one is saved and reported with its check value, or 422 with nothing written |
| GanttEndpoints.UpdateProjectDate | app/controller/detailed_schedule_gantt_controller.rb:325-344 | 404 exactly for a missing project; the permission checked is that of the URL's project; a valid save writes both dates |
| GanttEndpoints.UpdateVersionDate | app/controller/detailed_schedule_gantt_controller.rb:347-365 | 404 exactly for a missing version; the permission checked is `manage_versions` on the URL's project; a valid save writes both dates |
| GanttEndpoints.ProjectByIdentifier | app/controller/detailed_schedule_gantt_controller.rb:374 | the project with that identifier, or none exactly when no project has it |
| GanttEndpoints.PolledKey | app/controller/detailed_schedule_gantt_controller.rb:369-380 | a blank or missing identifier, or one naming no project, polls the global key |
| GanttEndpoints.GetLatestUpdate | app/controller/detailed_schedule_gantt_controller.rb:368-384 | the polled key's time exactly when it has a record |
| GanttEndpoints.PollSeesTouch | app/controller/detailed_schedule_gantt_controller.rb:368-384 | a poll sees the last touch of its key, and an unknown identifier sees the global key |
| GanttEndpoints.KeptOrders | app/controller/detailed_schedule_gantt_controller.rb:397-410 | exactly the request rows whose issue id names an existing issue, in request order |
| GanttEndpoints.UpsertedLookup | app/controller/detailed_schedule_gantt_controller.rb:413 | the user's row for an issue holds the last sort number sent for it; every other row is as it was |
| GanttEndpoints.UpdateSortNumber | app/controller/detailed_schedule_gantt_controller.rb:387-420 | a blank order ends in a server error with nothing written; otherwise the user's rows for the kept issues are upserted |
| Schema.CastValue | app/controller/detailed_schedule_gantt_controller.rb:84 | the cast value is of the column's type; nil stays nil and a value already of the type is kept; text for an integer column is nil exactly when blank and otherwise read by `to_i`; a number for an integer column is cut toward zero; text for a decimal column is nil exactly when blank; a number for a text column is printed by `to_s` |
| Schema.SelectEditorCast | assets/javascripts/add_setting/cell_properties.js:122-129 | the id text a select editor sends for an integer column reads as that id, and the empty text as nil |
| Schema.SelectEditorAssignee | assets/javascripts/add_setting/cell_properties.js:122-129 | choosing an assignee in the select editor assigns that user, and choosing none clears the assignee |
| Schema.WellTyped | app/controller/detailed_schedule_gantt_controller.rb:84 | nil is of every column's type; a decimal column holds numbers, an integer column whole numbers, a text column text; untyped columns accept anything |
| Schema.ReadAttribute | app/controller/detailed_schedule_gantt_controller.rb:93 | a column held nil reads as nil, the effort and id columns read as values of their type, and the key columns are never nil otherwise |
| RowUpdate.AssignedFields | app/controller/detailed_schedule_gantt_controller.rb:55-71 | the assigned attributes are exactly the non-date keys the user may edit, each cast for its column |
| RowUpdate.ClearedEstimateIsNull | app/controller/detailed_schedule_gantt_controller.rb:84-86 | clearing the estimate with empty text leaves nil in the `NOT NULL` estimate column, which the write then refuses |
| IssueBatch.BlankIssue | app/controller/detailed_schedule_gantt_controller.rb:230-237 | a new issue of the project and tracker, titled `無題`, unassigned, with zero effort, no check value and no colour, whose `status_id` reads as the given default status and `priority_id` as the given default priority; a missing one is nil in its `NOT NULL` column; no other field is set |
| IssueBatch.CopyDraft | app/controller/detailed_schedule_gantt_controller.rb:276-282 | the copy equals its source except that its scheduled effort is zero and its check value is the source's estimate (its status is kept; see Left out) |
| GanttEndpoints.Upserted | app/controller/detailed_schedule_gantt_controller.rb:403-413 | every existing key is kept, every sent issue gets a row for the user, new rows belong to the user only, and the last row sent wins |
| RowUpdate.Refusal | app/controller/detailed_schedule_gantt_controller.rb:39-53 | the first failing check answers: 404 exactly when the issue is missing, 403 exactly when it is found but not editable, 400 for a missing lock version, then 400 for missing or empty attributes; none exactly when all pass |
| RowUpdate.RowResponse.Status | app/controller/detailed_schedule_gantt_controller.rb:41-149 | the status is 400 exactly for the missing lock version and the missing attributes, and 200 exactly for a success that ignored no key for permission |
| DayKeysGenerator.DayKeysGenerator.constructor | redmine_detailed_schedule_gantt/assets/javascripts/util/day_keys_generator.js:12-16 | keeps the form's year, month and month count as `parseInt` read them |
| PasteHandler.PasteHandler.constructor | redmine_detailed_schedule_gantt/assets/javascripts/add_setting/edit/paste_handler.js:14-18 | keeps whether the clipboard is available; not in edit mode |
| DragHandler.DragListener.constructor | assets/javascripts/add_setting/drag_handler.js:160-163 | a handle starts not dragging, at position 0 and column 0, for its side, column and row's project and version |
| UserTotalDaysGenerator.MergeTotals | assets/javascripts/create_gantt_spreadsheet/user_total_days_generator.js:31-36 | writing totals never changes the number of rows |
| UserTotalDaysGenerator.FirstRowMatches | assets/javascripts/create_gantt_spreadsheet/user_total_days_generator.js:32 | the row `find` returns for a user id is also the first row of its own user id |
| DayKeysGenerator.SpansDay | redmine_detailed_schedule_gantt/assets/javascripts/util/day_keys_generator.js:66-74 | one pass of the month-span loop keeps the loop invariant and moves one day on |

## Left out

- Network and asynchrony: every `fetch`/`await` in the client is left out, and `send_request.js` is not part of this model. Replies enter as parameters: the reply value, the response list, the reload payload and the probe's answer. The order in which concurrent requests complete is not modelled.
- Alerts, confirmation dialogs and console messages: their texts are not modelled. A failed request ends in an `Alerted` outcome, and the user's answer to a confirmation is a parameter.
- DOM and rendering: the following are left out because they only change what is drawn.
  - cell styling (`cell_properties.js`);
  - the edit-mode and visibility toggles;
  - scroll synchronisation between the grids;
  - hover styles;
  - the placeholder elements;
  - the drag preview's pixel geometry (`drag_handler.js` 400-531). Only its column range and its acceptance test are modelled.
- Handsontable internals: only `alter` (insert and remove rows), cell reads and writes, `getSourceDataAtRow` and `toPhysicalRow` are modelled. The visual-to-physical mapping is given as a sequence.
- Clipboard access (`clipboard_checker.js` and the reading at `paste_handler.js` 68-90): the clipboard text enters as a parameter, absent for `null` or `undefined`. Whether the clipboard may be read is fixed when the handler is built.
- JavaScript `Number()` parsing: each edited cell carries its numeric reading (`NotANumber`, infinite or a finite decimal) as an input.
- JavaScript numbers are modelled as exact decimals. Floating-point rounding is not modelled, and `NaN` or an infinity stored in a cell is not modelled. `String(n)` is written positionally, without the exponent form very large or small numbers take.
- `Math.round` over pixel distances: distances are whole pixels.
- Time zones and `new Date(string)` parsing: dates are proleptic Gregorian (year, month, day). Only `YYYY-MM-DD` texts are read as dates. Engine-specific lenient parsing of other texts is not modelled.
- The clock: `Time.now` and the browser's current date enter as parameters.
- Redmine and ActiveRecord internals:
  - `editable?`, `deletable?`, `allowed_to?` and `safe_attribute_names` are sets in the `Actor` value;
  - Redmine's own validations are the `validate` parameter;
  - the trackers' default statuses and the default priority enter `create_empty_issues` as parameters;
  - `copy_from` copies the columns of the model's `Issue` record. The model copies `status_id` too, which Redmine leaves out (see the `IssueBatch.CopyDraft` line). Custom fields, watchers, relations and journals are not modelled.
- Schema.AsDecimal: Rails reads text sent for a decimal column with `to_d`, which takes a leading number (`"1.5abc"` reads as 1.5). The model reads every non-blank text as zero, so that leading-number reading is not modelled.
- Schema.CastValue: date and time columns keep the text as sent. Rails' date parsing of that text is not modelled; it reaches the record as the `validate` parameter sees it.
- Schema.AsInteger: integer columns are 4-byte in the database. A value outside that range, which Rails refuses when it is written, is kept unbounded.
- Schema.NumberText: Ruby prints a very large or very small `Float` in exponent form (`1.0e+16`). Only the positional form is modelled.
- Schema.Assign: the key columns (`id`, `project_id`, `lock_version`) are never assigned, as `safe_attribute_names` never lists them. The extra handling Redmine's `safe_attributes=` gives some attributes (status transitions, parent, custom fields, the project move) is not modelled.
- IssueBatch.CopyDraft: the copy keeps its source's `status_id`. Redmine's `copy_from`, called without `keep_status`, leaves the status out, so the saved copy gets its tracker's default status instead; the tracker's default status is not part of the copy model.
- GanttEndpoints.Upserted: when the request names the same issue twice, the model lets the last row sent win, as MySQL and SQLite apply the rows of `upsert_all` in order. PostgreSQL refuses an `INSERT … ON CONFLICT DO UPDATE` that touches one key twice; the action's `rescue` then answers 500 with nothing written. The client never sends an issue twice.
- GanttEndpoints.UpsertedLookup: "the last sort number sent" for a duplicated issue holds on MySQL and SQLite only, for the reason on the `GanttEndpoints.Upserted` line.
- `StaleObjectError` and row locking: a transaction is a sequential step with an explicit lock-version compare and a rollback to the snapshot. Interleavings are not modelled.
- Issue ids consumed by rolled-back inserts stay consumed, as a database sequence does. Whether a `return` inside `Issue.transaction` commits depends on the Rails version. `IssueBatch.DeleteSelectedIssues` keeps the issues destroyed before the failing one.
- `show`, `show_all_projects`, `setup_gantt_common`, `fetch_gantt_data` and `get_data` build the chart's JSON from Redmine's Gantt query. They are not part of this model; the payload they produce is the reload parameter.
- The project recompute's `.to_f` conversion: sums and differences are exact hundredths.
- Column overflow: a value that does not fit its column is stored unbounded, where the database would refuse it. This covers a project total beyond `decimal(7,2)`, and an issue total, `estimated_days` or `check_days` beyond the issue's `decimal(5,2)` columns (above 999.99). Daily figures are clamped by their normalisers and cannot overflow.
- Moving an issue to another project is not modelled: the issue patch's project recompute runs for the issue's current project only.
- Routing, `before_action` filters and authorisation of the controller actions (`init.rb`, `config/routes.rb`, the hooks and the queries-controller patch) are not part of this model.
- `undo_handler.js`, `insert_back_url.js`, `factory.js`, `edit_mode_manager.js` and `visuable_manager.js` are not part of this model.
- The helper `issue_extra_helper.rb` formats floats for display and is not modelled.
- `CreateHandsontable.NullReplaceEmpty`: the hook's `source` argument is not modelled because the rewrite does not depend on it.
- `UserTotalDaysGenerator` and `ReloadManager`: the order of properties in a row object is not modelled. Rows are maps.

## Findings

| source | as written | input that shows it | evidently intended | confidence | as-written member | corrected member |
|---|---|---|---|---|---|---|
| assets/javascripts/create_gantt_spreadsheet/project_control_rows_generator.js:62-78 (the same code is in milestone_rows_generator.js:60-78) | `startColIndex` is -1 when no day key is on or after the start date. The guard `startColIndex <= endColIndex` still lets the row through. The merged cell then starts at column `COL_FIRST_DAY - 1` (`check_days`) and spans every day column, and `'1'` is stored under the property `"undefined"`. | Day keys for January 2025 and a project whose start and end dates both fall in March 2025: start index -1, end index 30, a cell at column 11 with colspan 32. | No merged cell and no marker for a period that starts after the last displayed day. Every cell lies inside the day columns and covers exactly the days of the period. | not executed | MergeCells.PeriodAfterLastKey | MergeCells.CellCoversPeriod |
| assets/javascripts/util/reload_manager.js:89,159 | When the fetch fails, `reload` falls back to a default payload without `versions`. The loop over `data.versions` then throws a `TypeError` before either grid is updated, and the loading indicator stays up. | A reload whose fetch of the chart data fails, such as a network error or a non-2xx answer. | The failed-fetch default carries an empty `versions` list, so the grid is rebuilt empty and the footer keeps one tally row per user. | not executed | ReloadManager.FailedReloadThrowsAsWritten | ReloadManager.FailedReloadEmptiesGrid |
