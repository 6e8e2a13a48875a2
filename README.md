# jira-auto-worklog, modelled in Dafny

`auto_worklog_semana_actual.py` fills in a user's Jira worklogs for the
current week. It works in four steps:

1. It looks up the caller's `accountId`.
2. It computes Monday..Friday of the week containing "today".
3. It loads the public holidays of the years that week spans.
4. It groups the five days by the issue configured for their month or year,
   or the default issue, and submits the work.

For each issue it lists the existing worklogs once. It then POSTs one entry
per day that is neither a holiday nor already logged by the caller. The entry
is the normal minutes, or the reduced minutes on Friday, starting at 09:00
UTC-3. Only a `201` answer counts a day as loaded, and only a `201` adds the
date to the issue's set of logged dates.

The model keeps the program's split between pure and imperative code:

- **Pure code is functions.**
  - `Digits`: zero-padded and plain decimal text.
  - `Calendar`: Python `datetime` ordinals, `weekday()`, the conversion to
    year/month/day in both directions, and `%Y-%m-%d` text with its parser.
  - `IssueRouting`: the issue mapping and `get_issue_for_date`.
  - `Tracker`: the identity check, the holiday-set comprehension and the
    existing-worklog comprehension, each working on a structured reply.
  - `Week`: Monday, the five days, and the years they span.
- **Step-by-step code is methods with loop invariants.**
  - `Orchestrator.LoadHolidays` is the `feriados |=` loop.
  - `Submission.GroupByIssue` is the `setdefault(...).append` loop.
  - `Submission.SubmitGroup` is the inner `for fecha in dias` loop.
  - `Submission.SubmitAll` is the outer `for issue_key, dias in ...items()`
    loop.
  - `Orchestrator.RegisterHours` is `registrar_horas`.
  - Each of these is proved equal to a specification function:
    `LoadHolidays` to `HolidaysOf`, `GroupByIssue` to `IssueOrder` and
    `DatesFor`, `SubmitGroup` to `GroupRun`, `SubmitAll` to `AllRun`, and
    `RegisterHours` to `WeekRun`. The program's promises are lemmas about
    those functions:
    - the counter counts exactly the `201` answers;
    - the logged set grows only on `201`;
    - no POST is made for a holiday or for an already-logged date;
    - a date is never posted again after a `201` on the same issue;
    - each issue receives exactly its pending days, in order;
    - the issues are worked through in order of their first day, each
      issue's POSTs before the next issue's;
    - no day is posted twice, so there are at most 5 POSTs.

Every HTTP answer is an input:

- the `/myself` reply;
- a function from year to holiday reply;
- a function from issue key to worklog listing;
- a function from the index of a POST within the run to the status that
  answered it.

"Today" is a parameter.

## Model

| member | source | states |
|---|---|---|
| Digits.Padded | auto_worklog_semana_actual.py:63-64 | `:04d` / `:02d` text has exactly the width asked for, is all digits, and reads back as the number whenever the number fits |
| Digits.Decimal | auto_worklog_semana_actual.py:161 | the `{minutos}` text is all digits, reads back as the minutes, and has no leading zero |
| Calendar.ToCivil | auto_worklog_semana_actual.py:63-64 | the year/month/day of a date is a valid civil date whose ordinal is that date |
| Calendar.CivilRoundTrip | auto_worklog_semana_actual.py:63-64 | civil to ordinal to civil loses nothing, for every valid civil date |
| Calendar.FromCivilInjective | auto_worklog_semana_actual.py:107-108 | two valid civil dates with the same ordinal are equal |
| Calendar.Weekday | auto_worklog_semana_actual.py:107 | `weekday()` lies in 0..6 |
| Calendar.WeekdayExamples | auto_worklog_semana_actual.py:107 | the numbering matches real dates: 2025-12-15 has weekday 0 (Monday) and 2025-12-19 weekday 4 (Friday) |
| Calendar.LastDayFriday | auto_worklog_semana_actual.py:107-108 | the last day of the calendar, 9999-12-31, has weekday 4, so no week's Friday lies past it |
| Calendar.IsoRoundTrip | auto_worklog_semana_actual.py:145 | parsing the `%Y-%m-%d` text of a valid date gives the date back |
| Calendar.IsoDateInjective | auto_worklog_semana_actual.py:145 | two days have the same `fecha_str` exactly when they are the same day |
| Calendar.YearKey | auto_worklog_semana_actual.py:64 | the yearly key is 4 digits that read back as the year |
| Calendar.MonthKey | auto_worklog_semana_actual.py:63 | the monthly key is the yearly key, `-`, then 2 digits that read back as the month |
| Calendar.KeysArePrefixes | auto_worklog_semana_actual.py:63-64 | the yearly and monthly keys are the first 4 and 7 characters of the date's ISO text |
| Calendar.YearOfSpan | auto_worklog_semana_actual.py:111 | each of five consecutive days is in the year of the first day or of the last |
| Calendar.YearMonotone | auto_worklog_semana_actual.py:111 | a later day never has an earlier year |
| IssueRouting.IssueMap | auto_worklog_semana_actual.py:48-56 | a missing, undecodable or non-object mapping is the empty mapping; otherwise the decoded object |
| IssueRouting.IssueForCivil | auto_worklog_semana_actual.py:59-66 | a non-empty monthly value wins; else a non-empty yearly value; else the default if it is non-empty; else no issue. A result is never empty |
| IssueRouting.OnlyOwnPeriodsMatter | auto_worklog_semana_actual.py:59-66 | changing the mapping under any key other than the date's own month and year keys does not change its issue |
| IssueRouting.InvalidMappingIsEmpty | auto_worklog_semana_actual.py:52-56 | an undecodable mapping routes every date exactly as an empty one does |
| IssueRouting.RoutingExample | auto_worklog_semana_actual.py:59-66 | on a concrete mapping: the month beats the year, the year beats the default, and nothing configured gives no issue |
| Tracker.IdentityGate | auto_worklog_semana_actual.py:69-104 | the run proceeds exactly on a 200 reply with a non-empty `accountId`, carrying that id and name; a non-200 reply aborts (the unpacking raises); a 200 reply without an id aborts at the guard |
| Tracker.DateSet | auto_worklog_semana_actual.py:20 | the set holds exactly the `date` fields of the records |
| Tracker.HolidayDates | auto_worklog_semana_actual.py:10-27 | a year's holidays are the record dates of a 200 reply whose records all have a date; a raised request, a non-200 reply or a record without a date gives the empty set |
| Tracker.StartedDay | auto_worklog_semana_actual.py:92 | `started[:10]` is the first 10 characters, or the whole string when it is shorter |
| Tracker.MyDates | auto_worklog_semana_actual.py:91-95 | the set holds exactly the `started[:10]` of the worklogs authored by the caller |
| Tracker.ExistingDates | auto_worklog_semana_actual.py:79-96 | a 200 listing gives exactly the caller's `started[:10]` dates; 401 and every other status give the empty set |
| Tracker.OthersDoNotCount | auto_worklog_semana_actual.py:94 | adding a worklog by someone else never changes the caller's dates |
| Week.WeekStart | auto_worklog_semana_actual.py:107 | Monday has weekday 0 and is at most 6 days before today |
| Week.WorkWeek | auto_worklog_semana_actual.py:123 | the five days are Monday+i, with weekday i, and stay inside the calendar |
| Week.Friday | auto_worklog_semana_actual.py:108 | Friday is Monday+4, the last day of the week, with weekday 4 |
| Week.WeekShape | auto_worklog_semana_actual.py:123-130 | the days are consecutive, strictly increasing and all weekdays, so the weekend guard never drops one |
| Week.YearsListed | auto_worklog_semana_actual.py:111 | the year of every day of the week is among the years queried |
| Week.WeekYearsSorted | auto_worklog_semana_actual.py:111 | the years queried start with Monday's year and end with Friday's, strictly increasing, one or two of them, and hold no other year |
| Week.WeekYearsExact | auto_worklog_semana_actual.py:111 | the years queried are the days' years, sorted and without repeats: one or two of them |
| Submission.EntryShape | auto_worklog_semana_actual.py:156-162 | `timeSpent` is the decimal minutes plus `m`, reduced on Friday and normal otherwise; `started` is the date plus `T09:00:00.000-0300`; the comment is the configured text |
| Submission.PostedEntryIsFoundAgain | auto_worklog_semana_actual.py:90-96 | the caller's posted entry, once listed, makes its date count as already logged |
| Submission.DefaultMinutesText | auto_worklog_semana_actual.py:43-44 | the default 8.5 h and 6 h are sent as `510m` and `360m` |
| Submission.Resolved | auto_worklog_semana_actual.py:129-135 | a weekend day is never grouped; a weekday is grouped under exactly the issue configured for it, and not at all when none is |
| Submission.IssueOrder | auto_worklog_semana_actual.py:126-137 | the dictionary's keys have no repeats and are exactly the issues of the grouped days |
| Submission.IssueOrderPrefix | auto_worklog_semana_actual.py:126-137 | the keys are in order of first occurrence: the keys built from any leading part of the days are a prefix of the keys built from all of them |
| Submission.DatesFor | auto_worklog_semana_actual.py:126-137 | an issue's list holds exactly the days grouped under it and keeps their increasing order |
| Submission.GroupByIssue | auto_worklog_semana_actual.py:126-137 | the loop builds the dictionary whose keys, in insertion order, are `IssueOrder` and whose lists are `DatesFor` |
| Submission.NoDaysWithoutIssue | auto_worklog_semana_actual.py:137 | an issue that is not a key has no days |
| Submission.GroupingPartitions | auto_worklog_semana_actual.py:126-137 | a day is in an issue's group exactly when that issue is its resolved issue; groups are increasing; an issue is a key exactly when its group is non-empty |
| Submission.IsoDateStamps | auto_worklog_semana_actual.py:145 | the `%Y-%m-%d` rendering is injective |
| Submission.CreatedCount | auto_worklog_semana_actual.py:183-184 | the number of `201` answers is at most the number of POSTs |
| Submission.CreatedCountAppend | auto_worklog_semana_actual.py:184 | the number of `201` answers is additive over consecutive runs of POSTs |
| Submission.CreatedDates | auto_worklog_semana_actual.py:185 | the set holds exactly the dates of the POSTs answered `201` |
| Submission.Pending | auto_worklog_semana_actual.py:144-154 | a day is pending exactly when its text is neither a holiday nor already logged |
| Submission.PendingIncreasing | auto_worklog_semana_actual.py:144-154 | the pending days of increasing days are increasing: the filter keeps the days' order |
| Submission.SubmitGroup | auto_worklog_semana_actual.py:144-188 | the inner loop's posts, final `existentes` and count equal the issue's run `GroupRun` |
| Submission.GroupRunCounts | auto_worklog_semana_actual.py:183-185 | `existentes` ends as the listed dates plus the dates answered `201`, and the count is the number of `201` answers |
| Submission.GroupRunPosts | auto_worklog_semana_actual.py:144-181 | each POST is for one of the issue's days, with the day's text and entry and the answer for its position, and is neither a holiday nor listed before the loop; there are no more POSTs than days |
| Submission.GroupRunNoRepeat | auto_worklog_semana_actual.py:183-185 | a date answered `201` is never posted again on the issue |
| Submission.GroupRunPending | auto_worklog_semana_actual.py:144-154 | for distinct days, the POSTed days are exactly the pending days, in order, each once, whatever the answers |
| Submission.OnIssue | auto_worklog_semana_actual.py:140 | the POSTs on one issue are exactly those of the run with that issue |
| Submission.SubmitAll | auto_worklog_semana_actual.py:140-188 | the outer loop's posts, count and listed issues equal the run `AllRun` |
| Submission.AllRunQueries | auto_worklog_semana_actual.py:140-141 | each key's worklogs are listed once, in the dictionary's order |
| Submission.AllRunCounts | auto_worklog_semana_actual.py:183-184 | `dias_cargados` equals the number of POSTs answered `201` |
| Submission.AllRunPosts | auto_worklog_semana_actual.py:140-181 | the k-th POST is on a key, for one of its days, with that day's text and entry, answered by the k-th status, and is neither a holiday nor a date the issue listed for the caller |
| Submission.AllRunNoRepeat | auto_worklog_semana_actual.py:140-185 | a `201` on an issue is never followed by another POST of the same date on it |
| Submission.AllRunPending | auto_worklog_semana_actual.py:140-154 | each key receives exactly its pending days, in order, each once; any other issue receives nothing |
| Submission.AllRunIssueOrder | auto_worklog_semana_actual.py:140-188 | with each key visited once, the POSTs come issue by issue: all of the first key's, then all of the next key's, and so on |
| Submission.AllRunDistinctDays | auto_worklog_semana_actual.py:126-188 | when no day is in two groups, no day is posted twice in the whole run |
| Orchestrator.HolidaysOfUnion | auto_worklog_semana_actual.py:111-114 | a date is a holiday of the run exactly when the reply of some queried year lists it |
| Orchestrator.LoadHolidays | auto_worklog_semana_actual.py:111-114 | the loop's set is `HolidaysOf` the queried years, the union of their holiday dates |
| Orchestrator.RegisterHours | auto_worklog_semana_actual.py:99-188 | a failed identity check ends the run with its reason before any other call; otherwise the run is exactly `WeekRun` for the caller's identity |
| Orchestrator.WeekRunFacts | auto_worklog_semana_actual.py:99-188 | a run past the identity check covers the week of today; its holidays are exactly those of the week's years; it lists each key once, in key order; every POST is `Sound`; each key's POSTs are exactly its pending days and come before the next key's; no date is posted again after a `201`; the count equals the `201` answers; no day is posted twice, so there are at most 5 POSTs |
| Orchestrator.RunFacts | auto_worklog_semana_actual.py:120-188 | for the grouping of increasing days, the submission lists the keys in order, counts the `201` answers, keeps every POST `Sound`, never reposts after a `201`, gives each key its pending days issue by issue, and posts each day at most once |
| Orchestrator.WeekSound | auto_worklog_semana_actual.py:140-181 | every POST is on a weekday of the week, on the issue configured for it, with its text and entry and its own answer, and is neither a holiday nor a date already logged by the caller |
| Orchestrator.WeekNoRepost | auto_worklog_semana_actual.py:140-185 | with each key visited once, a date answered `201` on an issue is never posted on it again |
| Orchestrator.WeekPending | auto_worklog_semana_actual.py:140-154 | each key of the grouping receives exactly its pending days, in order, each once; any other issue receives nothing |
| Orchestrator.WeekBound | auto_worklog_semana_actual.py:120-188 | no day is posted twice, so the count is at most the number of POSTs, which is at most the number of days |

## Left out

- HTTP: the `requests.get`/`requests.post` calls and their timeouts are not modelled. Their results are parameters.
  - The `/myself` reply is a `MyselfReply`.
  - The holiday service is a function from year to `HolidayReply`.
  - The worklog listing is a function from issue key to `WorklogListing`.
  - The POST statuses are a function from a POST's index in the run to its status.
- Call order: the model records each kind of call in order, but not how GETs and POSTs interleave.
- JSON decoding is not modelled. The mapping, the holiday records and the worklog records arrive decoded.
  - A mapping that is unset, empty, invalid or not an object is `None`.
  - A mapping value that is not a string is outside the model.
  - A worklog without `author.accountId` has `None` as its author.
- Configuration: `load_dotenv`/`os.getenv` are not modelled. The configuration is one immutable `Config` value.
- Hours: they are whole minutes. `float(...)` and `int(horas * 60)` are not modelled, so a fractional minute is not truncated. `DefaultMinutesText` checks the defaults (510 and 360).
- `datetime.now()` is the `today` parameter. Time of day and time zone are not modelled.
- Printing: console output is not modelled. That includes the session-expired message, which is the only difference between the 401 and other non-200 listing branches.
- Comment: the comment is its text only. The constant rich-text wrapper around it is not modelled.
- Exceptions: the model represents only status-code failures of the tracker calls. These raise instead and end the run with a traceback, after any POSTs already made:
  - `requests.get` (line 82) or `requests.post` (line 181) raising;
  - `r.json()` (line 75) on a 200 `/myself` reply whose body is not JSON, before any holiday call;
  - `r.json()` (line 90) on a 200 listing whose body is not JSON;
  - `"worklogs": null` in a 200 listing (line 93), which cannot be iterated;
  - a worklog by the caller without `started` (line 92);
  - a worklog whose `author` is `null` (line 94).
- Worklogs without `started`: the source skips one written by someone else, because the author test at line 94 runs before `started` is read. The model's `Worklog.started` is always present, so such a record is outside the model's input type.
- Identity failure: a failed identity lookup raises `TypeError` when its `None` is unpacked. The model gives it its own abort reason, `LookupRaised`, and does not model the exception itself.
- Digits.Padded: a number wider than the field keeps only its low digits, where `:0Nd` prints it whole. Every caller passes a year, month or day that fits, so the keys and dates are unaffected.
- Year text: dates are always written with a 4-digit, zero-padded year. `strftime` on some platforms does not pad years before 1000.
- Calendar limits: the calendar covers `date.min`..`date.max` (ordinals 1..3652059). The week never leaves it: 0001-01-01 is a Monday and 9999-12-31 a Friday (`LastDayFriday`), and `WorkWeek` proves all five days lie inside, so the `OverflowError` of lines 107-108, 111 and 123 cannot occur.
- `main.py`: it is not part of this model. It is a cookie probe with an interactive confirmation and a subprocess launch.
- `Submission.SubmitGroup`: its loop renders each day through the `Stamp` parameter, a date-to-text function. `RegisterHours` passes the `%Y-%m-%d` renderer `IsoDate`. The per-issue lemmas assume only that the rendering is injective, which `IsoDateStamps` proves for `IsoDate`.
- `Submission.GroupRunPending`: it requires distinct days, and `Submission.AllRunPending` requires distinct keys. `Orchestrator.WeekRunFacts` discharges both requirements for the week's grouping. With repeated days the source's behaviour depends on which POSTs succeed, and the model states only `GroupRunNoRepeat` for that case.
