# Shift check-in app: a verified model of its core

The app is a small mobile shift-management tool. Administrators keep a
list of employees, plan shifts (an employee at a location on a date, from
a start to an end time) and read time reports. Employees see their
schedule, check in and out of the shift planned for today, and look back
over their work history. Everything is kept in a local key-value store as
JSON lists.

This project models the logic behind those screens:

- **Records** (`Types`): users, locations, shifts with their four statuses,
  check-ins, employees and time reports, as Dafny datatypes.
- **Check-in lifecycle** (`CheckInFlow`): finding today's shift and the
  open check-in, the check-in and check-out handlers as methods of a
  `CheckInScreen` class whose fields are the screen's state, the status
  change of the shift, and the rule that an employee has at most one open
  check-in.
- **Timekeeping** (`Timekeeping`): durations of check-ins, totals, the
  week/month/all period filter and the "Xh Ym" hour formatter.
- **Admin reports** (`Reports`, `Grouping`, `Sorting`): one report per
  employee and location with check-ins in the period, overtime beyond eight
  hours per check-in, the summary totals, the top performers and the
  per-location statistics. Both statistics are dictionary bucketing
  followed by a stable sort.
- **Employee CRUD** (`Employees`): per-employee statistics, adding (with
  PIN generation and back-filling), editing, deleting and toggling the
  active flag.
- **Shift planning** (`ShiftPlanning`, `Calendar`): adding and deleting
  shifts, the calendar dots per date and the list of upcoming shifts.
- **Employee schedule** (`Schedule`): the user's shifts, their calendar
  marks, the next five shifts and the hours of completed shifts this week.
- **Work history** (`History`): the period filter sorted newest first, the
  total hours, the check-in count and the hours per location, as methods of
  a `HistoryScreen` class.

Modelling choices:

- Instants are integers in milliseconds since the epoch, in UTC.
- A shift's date (a `YYYY-MM-DD` string in the app) is a day number. Its
  instant is `day * DAY_MS`, which is how a JavaScript `Date` reads a
  date-only string.
- Hours are kept as whole milliseconds rather than floating-point hours.
- Identifiers drawn from the clock, random PIN draws, the GPS position and
  the reverse-geocoded address are parameters.
- The sort used by the screens is modelled as a stable insertion sort
  (`Sorting.SortDesc`). `Array.prototype.sort` is stable.

## Model

| member | source | states |
|---|---|---|
| Types.ParseStatus | types/index.ts:32 | a status name is accepted exactly when it is one of the four statuses, and it names the status it yields |
| Types.StatusNameRoundTrip | types/index.ts:32 | every status's name reads back as that status |
| Text.ParseClock | app/employee/schedule.tsx:88-90 | a readable clock time is a minute of the day, in [0, 1440) |
| Text.ParseClockString | app/employee/schedule.tsx:88-90 | every minute of the day written as HH:MM reads back as that minute |
| Text.Trim | app/employee/checkin.tsx:143 | the result is a stretch of the text that neither starts nor ends with white space, everything cut off on either side is white space, and it is empty exactly when the text is blank |
| Text.TrimChars | app/employee/checkin.tsx:143 | trimming keeps only characters of the text |
| Text.TrimOfTrimmed | app/employee/checkin.tsx:143 | a text that neither starts nor ends with white space is left as it is |
| Text.TrimIdempotent | app/employee/checkin.tsx:133 | trimming twice is trimming once |
| Text.KeepDigits | app/admin/employees.tsx:373 | the result holds only digits, and holds exactly the digits the input holds |
| Text.KeepDigitsOfChar | app/admin/employees.tsx:373 | a single character is kept exactly when it is a digit |
| Text.KeepDigitsAppend | app/admin/employees.tsx:373 | the filter of a concatenation is the concatenation of the filters, so the digits keep their order and multiplicity |
| Text.ParseNatToString | app/admin/employees.tsx:86-88 | printing a number in decimal and reading it back gives the number |
| Text.FiveDigits | app/admin/employees.tsx:86-88 | numbers from 10000 to 99999 print as exactly five digits with no leading zero |
| Sorting.SortDesc | app/admin/reports.tsx:110 | sorting is a permutation: the same length and the same multiset |
| Sorting.SortDescSorted | app/admin/reports.tsx:110 | the sorted list has non-increasing keys |
| Sorting.SortDescStable | app/admin/reports.tsx:110 | elements with equal keys keep their relative order |
| Sorting.SortDescSum | app/admin/reports.tsx:120-122 | a sum over the list does not depend on the sort |
| Sorting.SortDescSortedIdentity | app/employee/history.tsx:63-65 | sorting an already sorted list leaves it unchanged |
| Sorting.SortDescDistinct | app/admin/reports.tsx:144-152 | sorting keeps distinct identifiers distinct |
| Sorting.TopOfSorted | app/admin/reports.tsx:151-152 | the first n of the sorted list are the n largest: nothing left out has a larger key than anything kept |
| Sorting.SortAscSorted | app/employee/schedule.tsx:74 | the ascending sort has non-decreasing keys |
| Sorting.SortAscStable | app/employee/schedule.tsx:74 | the ascending sort keeps equal keys in list order |
| Sorting.BottomOfSorted | app/employee/schedule.tsx:74-75 | the first n of the ascending sort are the n smallest |
| Timekeeping.Duration | app/employee/history.tsx:88-93 | an open check-in lasts nothing; a closed one lasts exactly from check-in to check-out |
| Timekeeping.CheckInsOf | app/admin/employees.tsx:54-56 | the kept check-ins are exactly those of the employee, taken from the list |
| Timekeeping.TotalIgnoresOpen | app/admin/employees.tsx:58-66 | the total is the total over the closed check-ins only |
| Timekeeping.TotalNonNegative | app/admin/reports.tsx:81-89 | the total is not negative when no check-out precedes its check-in |
| Timekeeping.FilterByPeriod | app/admin/reports.tsx:52-68 | "all" keeps everything; "week" and "month" keep exactly the check-ins at most 7 or 30 days before now |
| Timekeeping.SplitHours | app/admin/employees.tsx:184-188 | the whole hours are floored; the minutes are the rest rounded to the nearest minute, in 0..60 |
| Timekeeping.FormatHoursShowsSixtyMinutes | app/admin/reports.tsx:114-118 | 59 min 30 s is shown as "0h 60m" |
| Timekeeping.SplitHoursCarried | app/employee/history.tsx:95-99 | the minutes stay below 60, the total minutes are the same, and the result differs from the one written only by carrying 60 minutes into the hour |
| Grouping.TallyIsGroupOf | app/admin/reports.tsx:132-142 | the dictionary has a bucket for a key exactly when some row has it; the bucket holds the first row's name, the summed amounts, the row count and the set of tags of that key's rows |
| Grouping.FirstSeenKeys | app/admin/reports.tsx:144 | the entries come out once per key, exactly the keys of the dictionary |
| Grouping.GroupsCharacterised | app/admin/reports.tsx:144-150 | one group per key, each the bucket of its key's rows, and every row has its group |
| Grouping.AddToBucket | app/employee/history.tsx:107-112 | one step of the bucketing loop adds the row to its key's bucket, creating it if needed |
| Grouping.GroupBy | app/employee/history.tsx:103-114 | the bucketing loop produces the groups in first-seen order |
| Calendar.ShiftsOf | app/employee/schedule.tsx:32-34 | the kept shifts are exactly those assigned to the user by id or by name |
| Calendar.ShiftsForDate | app/admin/shifts.tsx:213-215 | the kept shifts are exactly those of the date, taken from the list |
| Calendar.ShiftsForDateAppend | app/employee/schedule.tsx:64-66 | filtering by date keeps the list order |
| Calendar.StatusColor | app/employee/schedule.tsx:246-253 | each status has its own colour: completed success, in progress warning, missed danger, scheduled primary |
| Calendar.Midnight | app/employee/schedule.tsx:69-70 | today's midnight is at or before now and less than a day before, and is the instant of today's date |
| Calendar.OnOrAfterMidnight | app/employee/schedule.tsx:73 | a date's instant is at or after today's midnight exactly when the date is today or later |
| CheckInFlow.FindCurrentShift | app/employee/checkin.tsx:49-53 | none exactly when the user has no shift today that is not completed (missed shifts are found too); otherwise the first such shift |
| CheckInFlow.FindActiveCheckIn | app/employee/checkin.tsx:67-69 | none exactly when the user has no open check-in; otherwise the first open one |
| CheckInFlow.SetShiftStatus | app/employee/checkin.tsx:156-164 | the shift with the id gets the new status and nothing else changes |
| CheckInFlow.CloseCheckIn | app/employee/checkin.tsx:193-201 | the check-in with the id gets its check-out time and nothing else changes |
| CheckInFlow.SetShiftStatusIdempotent | app/employee/checkin.tsx:205-213 | setting the same status twice is setting it once |
| CheckInFlow.CompletedShiftNotOfferedAgain | app/employee/checkin.tsx:49-53 | once a shift is marked completed it is never found as today's shift again |
| CheckInFlow.UngatedCheckInBreaksRule | app/employee/checkin.tsx:349-366 | checking in while a check-in is open would leave two open check-ins, which is why the button is hidden then |
| CheckInFlow.AppendOpenKeepsRule | app/employee/checkin.tsx:150-153 | adding an open check-in when none is open keeps at most one open, and it becomes the active one |
| CheckInFlow.CloseActiveLeavesNoneOpen | app/employee/checkin.tsx:193-201 | closing the active check-in leaves the user with none open |
| CheckInFlow.AddressLine | app/employee/checkin.tsx:137-147 | the address line carries no leading or trailing white space, is empty exactly when street, city and region are all missing or blank, and is made only of their characters and the separating spaces |
| CheckInFlow.JoinedParts | app/employee/checkin.tsx:143 | the joined parts are blank exactly when every part is, and hold only the parts' characters and spaces |
| CheckInFlow.FullAddressLine | app/employee/checkin.tsx:143 | a full address whose street does not start and whose region does not end with white space reads "street city region" |
| CheckInFlow.CheckInNotes | app/employee/checkin.tsx:133 | notes are stored trimmed and only when the trimmed text is not empty |
| CheckInFlow.OfferedAction | app/employee/checkin.tsx:349-366 | check-out is offered exactly when a check-in is open; check-in exactly when none is open and a shift is found, and it is enabled exactly when the location is known |
| CheckInFlow.CheckInScreen.Load | app/employee/checkin.tsx:21-33 | the screen holds the stored lists, today's shift and the open check-in, and starts with empty notes |
| CheckInFlow.CheckInScreen.EditNotes | app/employee/checkin.tsx:340 | typing replaces the notes and leaves the rest of the screen alone |
| CheckInFlow.CheckInScreen.HandleCheckIn | app/employee/checkin.tsx:107-175 | no shift or no location aborts with nothing changed; with both present the check-in always happens: the new open record is appended, the shift goes in progress, the record becomes active, the notes are cleared, and at most one check-in stays open |
| CheckInFlow.CheckInScreen.CommitCheckIn | app/employee/checkin.tsx:150-168 | the stored record is appended, the shift goes in progress and the record becomes active |
| CheckInFlow.CheckInScreen.HandleCheckOut | app/employee/checkin.tsx:183-218 | with no open check-in nothing changes; otherwise it is closed at now, its shift is completed and the screen has no active check-in or shift |
| Reports.Overtime | app/admin/reports.tsx:91-93 | overtime is reported exactly when the hours exceed eight per check-in, and is the excess |
| Reports.Matching | app/admin/reports.tsx:76-78 | the report's check-ins are exactly those of the employee at the location |
| Reports.ReportContents | app/admin/reports.tsx:95-104 | a report carries the employee, the location, the period, the summed duration of its closed check-ins, its overtime and its check-ins |
| Reports.RowReportsMembership | app/admin/reports.tsx:75-106 | one employee's reports are exactly those of the locations where the employee has check-ins |
| Reports.PushedReportsMembership | app/admin/reports.tsx:74-107 | the reports are exactly those of the employee-location pairs with check-ins |
| Reports.PushRowReports | app/admin/reports.tsx:75-106 | the inner loop appends one employee's reports in location order |
| Reports.SortedReportsMembership | app/admin/reports.tsx:110 | sorting neither adds nor loses a report |
| Reports.GenerateTimeReports | app/admin/reports.tsx:70-112 | the reports are those of the pairs with check-ins in the period, most hours first |
| Reports.ReportsCoverListedCheckIns | app/admin/reports.tsx:74-80 | every check-in of a listed employee at a listed location is in a report, and every check-in in a report is such a one |
| Reports.DistinctIds | app/admin/reports.tsx:123-124 | the set holds exactly the identifiers occurring in the reports |
| Reports.TotalStats | app/admin/reports.tsx:120-127 | the employee and location counts are at most the number of reports, and zero exactly when there are none |
| Reports.TotalStatsIgnoreSort | app/admin/reports.tsx:120-127 | the totals do not depend on the order of the reports |
| Reports.DistinctIdsSameElements | app/admin/reports.tsx:123-124 | lists with the same reports count the same identifiers |
| Reports.TotalOvertimeNonNegative | app/admin/reports.tsx:121 | the summed overtime is never negative |
| Reports.RankedRowsOfGroups | app/admin/reports.tsx:144-150 | one row per identifier, holding that identifier's hours and distinct names, and every report has its row |
| Reports.TopPerformers | app/admin/reports.tsx:129-153 | at most five employees, most hours first, each with their exact hours and location count, and no employee left out has more hours than one shown |
| Reports.LocationStats | app/admin/reports.tsx:155-178 | one row per location, most hours first, each with its exact hours and employee count, covering every report |
| Employees.LatestCheckIn | app/admin/employees.tsx:68-70 | none exactly for no check-ins; otherwise the latest check-in time |
| Employees.StatsFor | app/admin/employees.tsx:53-76 | the employee's total over closed check-ins, the number of check-ins and the latest check-in time |
| Employees.GeneratedPin | app/admin/employees.tsx:86-88 | a generated PIN is five digits without a leading zero that read back as the draw |
| Employees.SanitizePin | app/admin/employees.tsx:373-376 | the PIN field keeps the first five digits typed, or all of them when fewer were typed |
| Employees.ShortPinAccepted | app/admin/employees.tsx:373 | a PIN shorter than five digits gets through the field |
| Employees.Backfilled | app/admin/employees.tsx:125-128 | an employee without a PIN gets one and nothing else changes; one with a PIN is left alone |
| Employees.AddEmployee | app/admin/employees.tsx:99-141 | a missing field or an existing email is refused; the add succeeds exactly when neither happens, and then every employee has a PIN and the new active employee is appended |
| Employees.AddEmployeeKeepsEmailsDistinct | app/admin/employees.tsx:105-110 | adding keeps email addresses distinct |
| Employees.ReplaceById | app/admin/employees.tsx:149-151 | the employee with the selected id is replaced and the others are left alone |
| Employees.UpdateEmployee | app/admin/employees.tsx:143-157 | no selection or a missing field is refused; the edit succeeds exactly when neither happens, and then the selected employee replaces the stored one |
| Employees.ReplaceByIdIdempotent | app/admin/employees.tsx:149-151 | saving the same edit twice is saving it once, and ids are kept |
| Employees.DeleteEmployee | app/admin/employees.tsx:169 | exactly the employees with other ids remain |
| Employees.DeleteEmployeeKeepsOrder | app/admin/employees.tsx:169 | deleting distributes over concatenation, so the remaining employees keep their order |
| Employees.DeleteEmployeeSingle | app/admin/employees.tsx:169 | a single employee stays exactly when its id differs |
| Employees.DeleteAbsentIsIdentity | app/admin/employees.tsx:169 | deleting an unknown id changes nothing |
| Employees.ToggleEmployeeStatus | app/admin/employees.tsx:177-182 | the employee's active flag is flipped and nothing else changes |
| Employees.ToggleTwiceRestores | app/admin/employees.tsx:177-182 | toggling twice restores the list |
| ShiftPlanning.EmployeeById | app/admin/shifts.tsx:134 | none exactly when no employee has the id; otherwise the first that has it |
| ShiftPlanning.LocationById | app/admin/shifts.tsx:135 | none exactly when no location has the id; otherwise the first that has it |
| ShiftPlanning.AddShift | app/admin/shifts.tsx:128-158 | a missing field or an unknown employee or location is refused; otherwise a scheduled shift with their names is appended |
| ShiftPlanning.AddedShiftOnItsDate | app/admin/shifts.tsx:157 | an added shift is listed under its date |
| ShiftPlanning.DeleteShift | app/admin/shifts.tsx:182 | exactly the shifts with other ids remain |
| ShiftPlanning.DeleteShiftKeepsOrder | app/admin/shifts.tsx:182 | deleting keeps the list order |
| ShiftPlanning.DotColor | app/admin/shifts.tsx:196-198 | completed is success, in progress warning, and scheduled or missed primary |
| ShiftPlanning.DotColorDiffersOnlyForMissed | app/admin/shifts.tsx:196-198 | the dot colour and the status colour agree except for missed shifts |
| ShiftPlanning.DotsAreColors | app/admin/shifts.tsx:192-200 | a date's dots are the colours of that date's shifts, in list order |
| ShiftPlanning.DotsMatchShifts | app/admin/shifts.tsx:192-200 | a date has one dot per shift, coloured by that shift's status |
| ShiftPlanning.MarkedDates | app/admin/shifts.tsx:190-211 | exactly the dates with shifts and the selected date are marked, with their dots, and only the selected one is flagged |
| ShiftPlanning.UpcomingShifts | app/admin/shifts.tsx:286-288 | exactly the shifts whose date instant is not before now, in date order |
| ShiftPlanning.TodayNotUpcoming | app/admin/shifts.tsx:287 | after midnight, today's shift is not listed |
| ShiftPlanning.UpcomingFromToday | app/admin/shifts.tsx:286-288 | exactly the shifts dated today or later, in date order |
| ShiftPlanning.UpcomingDiffersOnlyByToday | app/admin/shifts.tsx:287 | the written list misses only shifts of today, and none at midnight |
| Schedule.LastOn | app/employee/schedule.tsx:45-51 | none exactly when no shift has the date; otherwise the last shift of the list with that date |
| Schedule.LastOnAppend | app/employee/schedule.tsx:45-51 | a later shift of a date overrides the earlier ones |
| Schedule.MarkedDates | app/employee/schedule.tsx:43-62 | exactly the dates with shifts and the selected date are marked; each shows its last shift's status colour, and only the selected one is flagged |
| Schedule.FromToday | app/employee/schedule.tsx:69-73 | exactly the shifts dated today or later |
| Schedule.UpcomingShifts | app/employee/schedule.tsx:68-76 | five shifts, or all of them when fewer are dated today or later, drawn from those shifts, in date order |
| Schedule.UpcomingAreEarliest | app/employee/schedule.tsx:74-75 | no shift left out is dated before one that is listed |
| Schedule.ShiftMinutes | app/employee/schedule.tsx:88-91 | readable exactly when both times are readable; less than a day either way; negative exactly when the end is before the start, and zero exactly when they are equal |
| Schedule.ShiftMinutesOfClocks | app/employee/schedule.tsx:88-91 | a shift written with HH:MM times lasts from its start minute to its end minute |
| Schedule.OvernightShiftCountsNegative | app/employee/schedule.tsx:88-91 | a 22:00-06:00 shift counts as minus 16 hours |
| Schedule.SumMinutes | app/employee/schedule.tsx:88-93 | the sum is readable exactly when every shift is readable |
| Schedule.SumMinutesSingle | app/employee/schedule.tsx:88-93 | a single shift sums to its own length |
| Schedule.SumMinutesAppend | app/employee/schedule.tsx:88-93 | the sum over a concatenation adds the sums of the parts, and is unreadable when either is |
| Schedule.WeekBoundsAsWritten | app/employee/schedule.tsx:80-81 | the start is now moved back to Sunday at the same time of day, and the end is six days after it |
| Schedule.WeekdayOfSunday | app/employee/schedule.tsx:80-81 | moving back by the weekday lands on a Sunday |
| Schedule.WeekMinutes | app/employee/schedule.tsx:78-94 | the week's completed shifts, Sunday to Saturday, are summed; readable exactly when they all are |
| Schedule.WeekMinutesSingle | app/employee/schedule.tsx:83-93 | one shift adds its length when it is a completed shift of this week, and nothing otherwise |
| Schedule.WeekMinutesAppend | app/employee/schedule.tsx:83-93 | the week's sum over a concatenation adds the sums over the parts |
| Schedule.WeekMinutesAsWrittenSkipsFirstDay | app/employee/schedule.tsx:78-94 | the written sum equals the intended sum over the shifts not dated on the week's first day, or over all shifts when now is midnight |
| Schedule.WeekBoundsDropFirstDay | app/employee/schedule.tsx:80-87 | the written bounds count a subset of the week; they miss exactly Sunday's shifts, unless now is midnight |
| Schedule.SundayShiftDropped | app/employee/schedule.tsx:78-94 | on a Sunday at noon, that day's completed eight-hour shift counts for nothing as written and for 480 minutes as intended |
| History.Filtered | app/employee/history.tsx:51-73 | exactly the period's check-ins, newest first |
| History.AllTimeSettles | app/employee/history.tsx:63-65 | once "all" has sorted the list in place, asking again returns the same list |
| History.TotalOfFiltered | app/employee/history.tsx:75-86 | the total is the summed duration of the period's closed check-ins |
| History.LocationStatsRanked | app/employee/history.tsx:101-119 | five locations, or all of them when fewer have closed check-ins, most hours first, one per location, each with its exact hours and count, and none left out has more hours |
| History.HistoryScreen.Load | app/employee/history.tsx:19-47 | the screen holds the user's check-ins and shifts, and starts on "week" |
| History.HistoryScreen.SelectPeriod | app/employee/history.tsx:152 | choosing a period changes only the period |
| History.HistoryScreen.FilteredCheckIns | app/employee/history.tsx:51-73 | the period's check-ins newest first; for "all" the screen's own list is sorted in place |
| History.HistoryScreen.TotalHours | app/employee/history.tsx:75-86 | the summed duration of the period's closed check-ins |
| History.HistoryScreen.CheckInCount | app/employee/history.tsx:175 | the number of check-ins in the period |
| History.HistoryScreen.LocationStats | app/employee/history.tsx:101-119 | the location rows of the period's closed check-ins |

## Left out

- Storage: the JSON lists in the key-value store are fields or parameters. Reading, writing, parse errors and lost updates between concurrent screens are not modelled.
- The sample-data seeding, login, navigation, alerts, modals, loading flags and all rendering are not modelled.
- Geolocation and reverse geocoding: the position is given to `CheckInFlow.CheckInScreen.Load`, and the geocoded address is a parameter of `HandleCheckIn`. Permission prompts and their failures are not modelled.
- Clocks and randomness: `Date.now()` identifiers, `new Date()` instants and the `Math.random` PIN draws are parameters.
- Time zones: instants and dates are read in UTC. A device in another zone shifts midnight and the week bounds, and that is not modelled.
- Timekeeping.Duration: hours are whole milliseconds rather than floating-point hours. Rounding in the floating-point division and `toFixed` displays are not modelled.
- Text.ParseClock: only `H:MM` and `HH:MM` are read. Other clock forms that the JavaScript date parser accepts (seconds, AM/PM) are treated as unreadable.
- Schedule.MarkedDates and ShiftPlanning.MarkedDates: the `selectedColor` and style fields of a mark and the order of the map's keys are not modelled.
- Grouping.FirstSeenKeys: entries come out in first-seen order. JavaScript lists integer-like keys (such as employee ids "1", "2") first in numeric order. After the stable sort this changes the order of rows with equal hours, and so, where the list is cut to five (app/admin/reports.tsx:151-152, app/employee/history.tsx:118), also which of several rows tied at fifth place is shown.
- Employees.AddEmployee, Employees.UpdateEmployee, Employees.DeleteEmployee and Employees.ToggleEmployeeStatus: the loaded employees carry the statistics fields `totalHours`, `totalShifts` and `lastCheckIn` (app/admin/employees.tsx:73-76). Each of these operations stores that list back, so the fields are written to storage as well; the model does not hold them.
- History.LocationStatsOf and History.HistoryScreen.LocationStats: the app buckets hours in a plain object keyed by the free-text location name (app/employee/history.tsx:103-112). A name that matches a property every object inherits ("toString", "constructor", "valueOf", "hasOwnProperty", "__proto__") finds that inherited member instead of a bucket. Its hours are written onto the inherited member, and `Object.entries` leaves the location out. The model keeps such a location as an ordinary row. The keys in app/admin/reports.tsx are generated ids, so this does not arise there.
- Unread fields: `User.createdAt`, `CheckIn.signature`, `CheckIn.photos` and `Employee.totalHours` from types/index.ts are not in the datatypes, because no modelled operation reads them.
- CheckInFlow.CheckInScreen: the screen reads the lists from storage on each action; the model holds them as fields, so changes made by other screens in between are not seen.
- Optional text fields are `Option`s. The model does not distinguish an empty string from an absent value where the app tests for truthiness: empty shift notes, and a check-out time of zero.
- CheckInFlow.CheckInScreen.HandleCheckIn: requires that no check-in is open. The handler does not test this itself; the screen renders the check-in button only when no check-in is open (app/employee/checkin.tsx:349-366), and `CheckInFlow.UngatedCheckInBreaksRule` shows what calling it anyway would break.
- A missing signed-in user (`user!`) is not modelled; the screens are given a user.

## Findings

| source | as written | input that shows it | evidently intended | confidence | as-written member | corrected member |
|---|---|---|---|---|---|---|
| app/admin/employees.tsx:184-188 (also app/admin/reports.tsx:114-118, app/employee/history.tsx:95-99) | the minutes are rounded after the whole hours are taken, so they can round up to 60 | 59 minutes 30 seconds is shown as "0h 60m" | carry 60 minutes into the hour: "1h 0m" | not executed | Timekeeping.FormatHoursShowsSixtyMinutes | Timekeeping.SplitHoursCarried |
| app/employee/schedule.tsx:78-87 | the week starts at now moved back to Sunday, keeping the time of day, and each shift's date is compared at midnight | Sunday 7 January 2024 at 12:00 UTC with a completed 09:00-17:00 shift that day: 0 hours this week | the shifts dated Sunday to Saturday of the current week: 8 hours | not executed | Schedule.SundayShiftDropped | Schedule.WeekMinutes |
| app/admin/shifts.tsx:286-288 | a shift is upcoming when its date's midnight is not before now | a shift dated today, viewed at 09:00, is not listed | shifts dated today or later | not executed | ShiftPlanning.TodayNotUpcoming | ShiftPlanning.UpcomingFromToday |
