# ngx-mydatepicker: a Dafny model of the calendar engine and the input directive

ngx-mydatepicker is an Angular date picker. This project models its two core classes in
Dafny and proves properties of the model.

The first class is the calendar component `NgxMyDatePicker`.
- It builds the 6 x 7 grid of days for a month.
- It works out which of the four header buttons are disabled.
- It moves between months and years.
- It rotates the weekday headings so that the configured first day of the week comes first.
- It runs the small state machine of the editable month and year labels.

The second class is the directive `NgxMyDatePickerDirective` on the input element.
- It merges the caller's options over its defaults and clamps the year bounds.
- It renders a chosen date as a local ISO 8601 string with its UTC offset, in the form of
  section 5.6 of RFC 3339.
- It converts a date to `yyyy-mm-dd`.
- On each key-up it keeps the input text and the selected date in step.

Files, one module each:

| file | module | what it holds |
|---|---|---|
| types.dfy | Types | the IMy* records (date, month, calendar day, week, date model, view-changed payload) |
| text.dfy | Text | decimal rendering of integers (`n + ''`) and its inverse |
| calendar.dfy | Calendar | month lengths, the host Date's month carry, weekdays, `sundayIdx`, `monthStartIdx`, `indexOf` |
| options.dfy | Options | the option record as a map from key to value, its defaults and typed reads |
| util.dfy | Util | the UtilService collaborators, as function values the model does not look into |
| grid.dfy | Grid | `CalendarGrid`, the grid `generateCalendar` builds, defined cell by cell, and its properties |
| component.dfy | Component | the class `DatePicker` (the component) and the functions that specify it |
| input.dfy | Input | `pad`, `getLocalISOString`, `convertDateFormat`, `parseOptions` and the class `DatePickerDirective` |

How the model is organised:
- **The clock.** `today` is a parameter of every handler that reads the clock.
- **Callbacks.** The component's `dateChanged` and `calendarViewChanged` callbacks are the
  values its handlers return.
- **Directive output.** The directive's emits and form callbacks are returned as a sequence of
  `Event`s, in the order the code produces them.
- **State-changing methods.** `generateCalendar`, the weekday-label loop, `parseOptions` and
  the other handlers that change fields are methods of the two classes, each with its
  `modifies` frame.
- **Specifications.** Each such method is proved against a function:
  - `GenerateCalendar` builds exactly `Grid.CalendarGrid`.
  - `SetHeaderBtnDisabledState` sets exactly `Component.HeaderButtonsFor`.
  - `WeekDayRow` pushes exactly `Component.WeekDayLabels`.
  - `ParseOptions` leaves exactly `Input.ParsedOptions`.
- **Properties.** The lemmas state the properties of those functions: the 42 cells, the three
  contiguous runs, the weekdays of the columns, the today mark and the header buttons at the
  edges of the year range.

The model keeps these details of the code as written:
- **Year clamp.** The year bounds are clamped one-sidedly. A `minYear` below 1000 is raised to
  1000 and a `maxYear` above 9999 is lowered to 9999. A `minYear` above 9999 or a `maxYear`
  below 1000 stays as given, and nothing stops `minYear` from exceeding `maxYear`. The reason is
  that `parseOptions` has exactly two checks, `minYear < MIN_YEAR` and `maxYear > MAX_YEAR`,
  and each assigns only its own bound.
- **Month buttons.** The previous-month button is disabled by the year range only when the
  shown month is January of `minYear` exactly. The next-month button is likewise disabled only
  at December of `maxYear`. A shown year outside the range does not disable them. The reason is
  that `setHeaderBtnDisabledState` tests `m === 1 && y === minYear` and
  `m === 12 && y === maxYear`, which are equalities, not range tests.
- **Header rules switch.** The `disableUntil` and `disableSince` checks of the four buttons
  apply only when `disableHeaderButtons` is on. The reason is that the four probe flags start
  as `false` and are only computed inside `if (this.opts.disableHeaderButtons)`.

## Model

| member | source | states |
|---|---|---|
| Calendar.MonthLength | src/ngx-my-date-picker/ngx-my-date-picker.component.ts:261-264 | a month has 28 to 31 days; February has 29 exactly in a leap year |
| Calendar.NormalizeMonth | src/ngx-my-date-picker/ngx-my-date-picker.component.ts:294-297 | the host Date carries any month number to a month 1..12 of the year that denotes the same month |
| Calendar.MonthPairUnique | src/ngx-my-date-picker/ngx-my-date-picker.component.ts:294-297 | two (year, month 1..12) pairs that denote the same month are equal, so the carry is unique |
| Calendar.NormalizeMonthSteps | src/ngx-my-date-picker/ngx-my-date-picker.component.ts:294-297 | months 1..12 stay put; month 0 is December of the year before, month 13 January of the year after |
| Calendar.DaysInMonth | src/ngx-my-date-picker/ngx-my-date-picker.component.ts:261-264 | `new Date(y, m, 0).getDate()` lies in 28..31 and is the month's length for m in 1..12 |
| Calendar.DaysInPrevMonth | src/ngx-my-date-picker/ngx-my-date-picker.component.ts:266-271 | stepping the first of the month back one month and measuring gives the length of month m - 1 after the carry |
| Calendar.YearLength | src/ngx-my-date-picker/ngx-my-date-picker.component.ts:283-287 | the day count gives a leap year 366 days and any other year 365 |
| Calendar.NextMonthStart | src/ngx-my-date-picker/ngx-my-date-picker.component.ts:261-264 | the first of the next month comes exactly daysInMonth days after the first of this month, for every month number |
| Calendar.DayOfWeek | src/ngx-my-date-picker/ngx-my-date-picker.component.ts:283-287 | `getDayNumber` is a weekday 0..6 |
| Calendar.KnownWeekdays | src/ngx-my-date-picker/ngx-my-date-picker.component.ts:283-287 | 1 January 2023 is a Sunday (0) and 1 February 2024 a Thursday (4) |
| Calendar.DayNumber | src/ngx-my-date-picker/ngx-my-date-picker.component.ts:283-287 | `getDayNumber` of a date is a weekday 0..6; GridFlags and CellDateWeekday place it in the grid |
| Calendar.Weekday | src/ngx-my-date-picker/ngx-my-date-picker.component.ts:289-292 | `getWeekday` gives one of the seven weekday keys |
| Calendar.WeekdayIndex | src/ngx-my-date-picker/ngx-my-date-picker.component.ts:28-28 | `indexOf` on the weekday keys reads a date's weekday key back as its weekday number |
| Calendar.KeyIndex | src/ngx-my-date-picker/ngx-my-date-picker.component.ts:28-28 | the seven weekday keys are distinct, so `indexOf` finds key i at position i |
| Calendar.SundayIdx | src/ngx-my-date-picker/ngx-my-date-picker.component.ts:299-302 | the result is the column of Sunday: in 0..6 and (first day + result) mod 7 = 0 |
| Calendar.MonthStartIdx | src/ngx-my-date-picker/ngx-my-date-picker.component.ts:251-259 | the column of day 1 is one of the seven columns, 0..6 |
| Calendar.MonthStartWeekday | src/ngx-my-date-picker/ngx-my-date-picker.component.ts:251-259 | the column is (weekday of day 1 + sundayIdx) mod 7, with the month carried and the year not, so the heading of that column is the weekday of day 1 |
| Calendar.MonthStartSerial | src/ngx-my-date-picker/ngx-my-date-picker.component.ts:251-259 | for a month 1..12, the first day of the week plus the column of day 1 is, mod 7, the serial of day 1 |
| Calendar.IndexOf | src/ngx-my-date-picker/ngx-my-date-picker.component.ts:63 | `indexOf` is -1 or a position of the sequence |
| Calendar.IndexOfFirst | src/ngx-my-date-picker/ngx-my-date-picker.component.ts:63 | `indexOf` is -1 exactly when the key is absent, and otherwise the position of its first occurrence |
| Calendar.SaturdayLast | src/ngx-my-date-picker/ngx-my-date-picker.component.ts:68 | "sa" is the weekday key at index 6 and at no other index |
| Calendar.WeekdayStep | src/ngx-my-date-picker/ngx-my-date-picker.component.ts:68 | stepping a weekday index by one wraps Saturday to Sunday |
| Text.NatToString | src/ngx-my-date-picker/ngx-my-date-picker.input.ts:262 | `n + ''` is a non-empty string of digits with no leading zero |
| Text.ValueOfNatToString | src/ngx-my-date-picker/ngx-my-date-picker.input.ts:262 | reading back the rendered digits gives the number |
| Text.NatToStringInjective | src/ngx-my-date-picker/ngx-my-date-picker.input.ts:262 | different numbers render differently |
| Text.NatToStringLength | src/ngx-my-date-picker/ngx-my-date-picker.input.ts:263 | a number below 10^k has at most k digits, and one at or above 10^(k-1) exactly k |
| Text.ValueOfZerosPrefix | src/ngx-my-date-picker/ngx-my-date-picker.input.ts:263 | zeros put in front of the digits do not change the value |
| Options.DefaultValue | src/ngx-my-date-picker/ngx-my-date-picker.input.ts:59-99 | each default has the type the option declares |
| Options.DefaultsComplete | src/ngx-my-date-picker/ngx-my-date-picker.input.ts:53-99 | the default record sets every option, well typed, with year bounds 1000 and 9999 |
| Grid.CellAtFields | src/ngx-my-date-picker/ngx-my-date-picker.component.ts:319-343 | every cell's `disabled` is the validator's verdict on its date, `currDay` holds exactly for a current-month cell dated today, and `dayNbr` is the weekday of its date (`isDisabledDay` is a function value, so its verdict is stated as the call itself) |
| Grid.IsCurrDay | src/ngx-my-date-picker/ngx-my-date-picker.component.ts:273-276 | a day is marked today exactly when it is of the current month and day d of month m of year y is today (the test compares the day, month and year fields with today, here stated as one date equality) |
| Grid.MakeDay | src/ngx-my-date-picker/ngx-my-date-picker.component.ts:321-342 | a pushed cell keeps its date and month relation, has a weekday 0..6, and its today mark holds exactly for a current-month cell whose day of the shown month is today |
| Grid.CellDate | src/ngx-my-date-picker/ngx-my-date-picker.component.ts:313-342 | cell k lies in year y; its month is m - 1 exactly before column ms, m exactly for the next daysInMonth cells and m + 1 after them; for ms in 0..6 and k in 0..41 its day lies in 1..length of the carried month |
| Grid.CellAt | src/ngx-my-date-picker/ngx-my-date-picker.component.ts:313-342 | a cell is a current-month cell exactly when its month is m; a cell marked today is dated today; every one of the 42 cells has a day within its carried month |
| Grid.CellRelation | src/ngx-my-date-picker/ngx-my-date-picker.component.ts:317-339 | the `cmo` tag of cell k; CellDate and CellAt tie it to the month field (current exactly when the month is m) and GridRuns proves the three tags form contiguous runs |
| Grid.RowCells | src/ngx-my-date-picker/ngx-my-date-picker.component.ts:315-345 | a row holds 7 cells |
| Grid.WeekAt | src/ngx-my-date-picker/ngx-my-date-picker.component.ts:346-347 | every week has 7 cells |
| Grid.CalendarGrid | src/ngx-my-date-picker/ngx-my-date-picker.component.ts:313-348 | the grid has 6 weeks of 7 cells |
| Grid.GridAt | src/ngx-my-date-picker/ngx-my-date-picker.component.ts:313-347 | column c of week w is the cell at position 7w + c |
| Grid.GridCells | src/ngx-my-date-picker/ngx-my-date-picker.component.ts:313-347 | the flattened grid has exactly 42 cells, position by position those of CellAt |
| Grid.GridRuns | src/ngx-my-date-picker/ngx-my-date-picker.component.ts:317-344 | the runs are contiguous: previous-month days dInPrevM - monthStart + 1 .. dInPrevM stored as month m - 1, then days 1..daysInMonth in order, then next-month days from 1 stored as month m + 1; current-month cells occur only in the middle run |
| Grid.FirstWeek | src/ngx-my-date-picker/ngx-my-date-picker.component.ts:315-331 | week 1 has monthStart previous-month cells followed by current-month cells |
| Grid.GridFlags | src/ngx-my-date-picker/ngx-my-date-picker.component.ts:317-343 | in every row and column, `disabled` is the validator's verdict, `currDay` marks exactly the current-month cell dated today, and `dayNbr` is the weekday of the cell's date |
| Grid.GridWeekNumbers | src/ngx-my-date-picker/ngx-my-date-picker.component.ts:346 | `weekNbr` is 0 unless week numbers are shown and weeks start on Monday; then it is the week number of the row's first cell (`getWeekNumber` is a function value, so the shown number is stated as the call itself) |
| Grid.WeekNumber | src/ngx-my-date-picker/ngx-my-date-picker.component.ts:346 | the `weekNbr` of a row; GridWeekNumbers states it for every row of the grid |
| Grid.SerialOffset | src/ngx-my-date-picker/ngx-my-date-picker.component.ts:294-297 | day d of a month is d - 1 days after its first day, for any day number |
| Grid.DayNumberOffset | src/ngx-my-date-picker/ngx-my-date-picker.component.ts:353 | day d of a month falls d - 1 weekdays after its first day |
| Grid.PrevMonthSerial | src/ngx-my-date-picker/ngx-my-date-picker.component.ts:320 | the literal date (y, m - 1, j) lies daysInPrevMonth - j + 1 days before the first of month m |
| Grid.NextMonthSerial | src/ngx-my-date-picker/ngx-my-date-picker.component.ts:341 | the literal date (y, m + 1, j) lies daysInMonth + j - 1 days after the first of month m |
| Grid.CellSerial | src/ngx-my-date-picker/ngx-my-date-picker.component.ts:317-344 | the date of the cell at position k is k - monthStart days after the first of the month, across both month boundaries, and has that day's weekday |
| Grid.CellDateWeekday | src/ngx-my-date-picker/ngx-my-date-picker.component.ts:317-344 | when day 1 falls on weekday first + monthStart, the cell in column c of any row falls on weekday first + c |
| Grid.CellWeekday | src/ngx-my-date-picker/ngx-my-date-picker.component.ts:251-259 | the cell in column c has weekday (first day of the week + c) mod 7 |
| Grid.GridColumnWeekdays | src/ngx-my-date-picker/ngx-my-date-picker.component.ts:251-259 | for every month 1..12, each column of the grid shows one weekday, the one its heading names |
| Grid.TodayMarkedOnce | src/ngx-my-date-picker/ngx-my-date-picker.component.ts:273-276 | `currDay` marks exactly the cell of today when today falls in the shown month, and no cell otherwise |
| Component.MonthButtonProbes | src/ngx-my-date-picker/ngx-my-date-picker.component.ts:362-364 | the previous-month probe is the day before the first of the month and the next-month probe the day after its last, both dates in a month 1..12 |
| Component.YearButtonProbes | src/ngx-my-date-picker/ngx-my-date-picker.component.ts:363 | the previous-year probe is the last day of the same month a year back |
| Component.HeaderButtonsAtBounds | src/ngx-my-date-picker/ngx-my-date-picker.component.ts:356-371 | with header rules off each button is disabled exactly by its year condition; at January of minYear both previous buttons are disabled, at December of maxYear both next buttons; strictly inside the range with rules off none is |
| Component.HeaderButtonsFor | src/ngx-my-date-picker/ngx-my-date-picker.component.ts:356-371 | the four button flags; their behaviour at the year bounds and with header rules off is HeaderButtonsAtBounds, and the dates they probe are MonthButtonProbes and YearButtonProbes |
| Component.StepMonth | src/ngx-my-date-picker/ngx-my-date-picker.component.ts:179-201 | the month reached is in 1..12, lies exactly delta months from the shown one, and carries its label |
| Component.StepMonthWraps | src/ngx-my-date-picker/ngx-my-date-picker.component.ts:179-201 | previous month wraps January to December of the year before, next month December to January of the year after; otherwise only the month moves by one |
| Component.StepMonthRoundTrip | src/ngx-my-date-picker/ngx-my-date-picker.component.ts:179-201 | next month undoes previous month and the other way round |
| Component.WeekDayLabels | src/ngx-my-date-picker/ngx-my-date-picker.component.ts:63-70 | no headings when the first day is not found; otherwise 7, heading c being the label of weekday (dayIdx + c) mod 7, so the row wraps after Saturday |
| Component.WeekDayRow | src/ngx-my-date-picker/ngx-my-date-picker.component.ts:64-70 | the loop pushes the labels of weekdays first, first + 1, ... mod 7, wrapping after "sa" |
| Component.HeadingStep | src/ngx-my-date-picker/ngx-my-date-picker.component.ts:64-70 | the label pushed for weekday index idx is heading i, and the next index, wrapping after "sa", is first + i + 1 mod 7 |
| Component.HeadingsMatchCells | src/ngx-my-date-picker/ngx-my-date-picker.component.ts:63-70 | the heading of every column is the label of the weekday of every cell below it |
| Component.HeadingOfDate | src/ngx-my-date-picker/ngx-my-date-picker.component.ts:63-70 | a date on weekday first + c (mod 7) carries the label of heading c |
| Component.ViewChangedDays | src/ngx-my-date-picker/ngx-my-date-picker.component.ts:353 | the payload's first day is 1, its last day the month's length, and the last weekday lies length - 1 days after the first |
| Component.ViewChanged | src/ngx-my-date-picker/ngx-my-date-picker.component.ts:353 | the calendarViewChanged payload of month m of year y; ViewChangedDays gives its first and last day and their weekdays, and GenerateCalendar returns it |
| Component.VisibleMonthFor | src/ngx-my-date-picker/ngx-my-date-picker.component.ts:156-177 | the month shown is that of the selected date, else the selected month, else today's |
| Component.IsNavigationKey | src/ngx-my-date-picker/ngx-my-date-picker.component.ts:113-113 | Enter (13) and the left and right arrows (37, 39); UserMonthInput and UserYearInput prove that on these keys nothing changes, as the early returns at lines 113 and 133 do |
| Component.DatePicker.constructor | src/ngx-my-date-picker/ngx-my-date-picker.component.ts:20-56 | the initial values of the field initialisers; `opts` starts as the default record, where the code leaves it undefined until `initialize` |
| Component.DatePicker.Initialize | src/ngx-my-date-picker/ngx-my-date-picker.component.ts:58-89 | the options, the today button, the first weekday and its headings, the selected date or default month, then the month VisibleMonthFor picks, shown with its grid, buttons and payload |
| Component.DatePicker.TakeOptions | src/ngx-my-date-picker/ngx-my-date-picker.component.ts:59-70 | the options are taken, the today button follows the validator, dayIdx is indexOf the first day and the headings are WeekDayLabels |
| Component.DatePicker.SelectInitial | src/ngx-my-date-picker/ngx-my-date-picker.component.ts:72-80 | a date the input text denotes is selected; failing that, a non-empty default month is |
| Component.DatePicker.ResetMonthYearEdit | src/ngx-my-date-picker/ngx-my-date-picker.component.ts:91-96 | all four edit flags are false |
| Component.DatePicker.EditMonthClicked | src/ngx-my-date-picker/ngx-my-date-picker.component.ts:98-103 | month editing starts only when editing is allowed |
| Component.DatePicker.EditYearClicked | src/ngx-my-date-picker/ngx-my-date-picker.component.ts:105-110 | year editing starts only when editing is allowed |
| Component.DatePicker.UserMonthInput | src/ngx-my-date-picker/ngx-my-date-picker.component.ts:112-130 | navigation keys change nothing; otherwise the input is invalid exactly when the validator refuses it, editing ends exactly when it accepts it, and the calendar moves exactly when the month accepted differs from the shown one |
| Component.DatePicker.UserYearInput | src/ngx-my-date-picker/ngx-my-date-picker.component.ts:132-150 | the same for the year: only the year of the shown month changes, and only to a different accepted year |
| Component.DatePicker.SetVisibleMonth | src/ngx-my-date-picker/ngx-my-date-picker.component.ts:156-177 | the month VisibleMonthFor picks is shown, labelled, with its grid, buttons and payload |
| Component.DatePicker.PrevMonth | src/ngx-my-date-picker/ngx-my-date-picker.component.ts:179-189 | the month shown becomes StepMonth(-1) of the old one, with its grid and buttons |
| Component.DatePicker.NextMonth | src/ngx-my-date-picker/ngx-my-date-picker.component.ts:191-201 | the month shown becomes StepMonth(+1) of the old one, with its grid and buttons |
| Component.DatePicker.PrevYear | src/ngx-my-date-picker/ngx-my-date-picker.component.ts:203-207 | only the year of the shown month changes, down by one |
| Component.DatePicker.NextYear | src/ngx-my-date-picker/ngx-my-date-picker.component.ts:209-213 | only the year of the shown month changes, up by one |
| Component.DatePicker.TodayClicked | src/ngx-my-date-picker/ngx-my-date-picker.component.ts:215-219 | the date model of today goes to the dateChanged callback |
| Component.DatePicker.CellClicked | src/ngx-my-date-picker/ngx-my-date-picker.component.ts:221-236 | a current-month cell is selected and nothing moves; a previous- or next-month cell moves the calendar one month that way; the edits end in every case |
| Component.DatePicker.CellKeyDown | src/ngx-my-date-picker/ngx-my-date-picker.component.ts:238-244 | Enter or Space on a cell that is not disabled acts exactly as CellClicked: a current-month cell is selected and the month, grid and buttons stay put; another cell steps the month once, shows it and reports the view change; anything else changes nothing |
| Component.DatePicker.SetHeaderBtnDisabledState | src/ngx-my-date-picker/ngx-my-date-picker.component.ts:356-371 | the four flags are exactly HeaderButtonsFor(m, y) |
| Component.DatePicker.GenerateCalendar | src/ngx-my-date-picker/ngx-my-date-picker.component.ts:304-354 | `dates` is exactly CalendarGrid(m, y), the buttons are those of (m, y), and the payload is that of the month |
| Component.BuildFirstWeek | src/ngx-my-date-picker/ngx-my-date-picker.component.ts:315-331 | the first row's two loops push the first 7 grid cells and leave dayNbr and cmo at the state of position 7 |
| Component.BuildLaterWeek | src/ngx-my-date-picker/ngx-my-date-picker.component.ts:333-345 | a later row's loop pushes the next 7 grid cells and carries dayNbr and cmo on to the next row |
| Component.LaterCellAt | src/ngx-my-date-picker/ngx-my-date-picker.component.ts:336-343 | switching to the next month once the month's last day is passed yields the grid cell at that position |
| Component.PrevCellAt | src/ngx-my-date-picker/ngx-my-date-picker.component.ts:319-322 | the cells pushed for days pm .. dInPrevM are the grid's previous-month cells |
| Component.CurrCellAt | src/ngx-my-date-picker/ngx-my-date-picker.component.ts:327-331 | the cells pushed for days 1.. of the month are the grid's current-month cells |
| Component.NextCellAt | src/ngx-my-date-picker/ngx-my-date-picker.component.ts:336-343 | the cells pushed after the month's last day are the grid's next-month cells |
| Component.WeekFromCells | src/ngx-my-date-picker/ngx-my-date-picker.component.ts:346-347 | the week pushed, with its week number, is the next row of the grid |
| Component.RowIsWeekAt | src/ngx-my-date-picker/ngx-my-date-picker.component.ts:346-347 | seven grid cells from position 7w on, with the week number of the first, are row w of the grid |
| Component.GridFromWeeks | src/ngx-my-date-picker/ngx-my-date-picker.component.ts:313-348 | six rows pushed in order are the whole grid |
| Input.FloorDiv | src/ngx-my-date-picker/ngx-my-date-picker.input.ts:262 | `Math.floor(a / b)` is the greatest q with b * q <= a |
| Input.JsRem | src/ngx-my-date-picker/ngx-my-date-picker.input.ts:273 | the host's `%` takes the sign of the dividend and has the remainder of its magnitude as magnitude |
| Input.Pad | src/ngx-my-date-picker/ngx-my-date-picker.input.ts:260-264 | `pad` yields decimal digits only |
| Input.PadValue | src/ngx-my-date-picker/ngx-my-date-picker.input.ts:260-264 | a padded field reads back as the magnitude of the number; its length is the larger of the width (2 when falsy) and the number of digits |
| Input.PadFixed | src/ngx-my-date-picker/ngx-my-date-picker.input.ts:263 | a number with at most w digits is padded to exactly w characters |
| Input.PadInjective | src/ngx-my-date-picker/ngx-my-date-picker.input.ts:262-263 | two numbers pad to the same text exactly when their magnitudes agree |
| Input.DateTextShape | src/ngx-my-date-picker/ngx-my-date-picker.input.ts:265-267 | `Y-MM-DD` is 10 characters with each field reading back |
| Input.TimeTextShape | src/ngx-my-date-picker/ngx-my-date-picker.input.ts:268-271 | `THH:mm:ss.sss` is 13 characters with each field reading back |
| Input.DateTimeTextShape | src/ngx-my-date-picker/ngx-my-date-picker.input.ts:265-271 | `YYYY-MM-DDTHH:mm:ss.sss` is 23 characters with separators at fixed places and each field reading back |
| Input.OffsetTextShape | src/ngx-my-date-picker/ngx-my-date-picker.input.ts:272-273 | `±HH:mm` is 6 characters with each field reading back |
| Input.FieldInConcat | src/ngx-my-date-picker/ngx-my-date-picker.input.ts:265-273 | a field keeps its place when text is appended, and shifts by the length of text put in front |
| Input.IsoStringShape | src/ngx-my-date-picker/ngx-my-date-picker.input.ts:265-273 | the assembled string is 29 characters with separators at fixed places and every field reading back |
| Input.LocalIsoStringShape | src/ngx-my-date-picker/ngx-my-date-picker.input.ts:256-271 | for a four-digit year, each of year, month (getMonth() + 1), day, hours, minutes, seconds and milliseconds reads back from its place |
| Input.OffsetAfterPrefix | src/ngx-my-date-picker/ngx-my-date-picker.input.ts:272-273 | six offset characters after a 23-character prefix are the sign at position 23 and the two fields after it |
| Input.LocalIsoStringOffset | src/ngx-my-date-picker/ngx-my-date-picker.input.ts:258-273 | the sign is '+' exactly when -getTimezoneOffset() >= 0, and the two offset fields are the whole hours and the remaining minutes of the offset |
| Input.AsWrittenHours | src/ngx-my-date-picker/ngx-my-date-picker.input.ts:272 | floor(tzo / 60) has the magnitude of the offset's whole hours exactly when tzo >= 0 or tzo is a whole number of hours |
| Input.LocalIsoStringAsWritten | src/ngx-my-date-picker/ngx-my-date-picker.input.ts:256-274 | `getLocalISOString` as written, hours of the offset from `Math.abs(Math.floor(tzo / 60))`; AsWrittenHalfHourBehind shows it renders UTC-03:30 as `-04:30`, AsWrittenAgrees says exactly when it agrees with LocalIsoString |
| Input.LocalIsoString | src/ngx-my-date-picker/ngx-my-date-picker.input.ts:256-274 | `getLocalISOString` with the offset hours taken from the magnitude; LocalIsoStringShape and LocalIsoStringOffset give its 29 characters, each field and the sign and size of the offset |
| Input.LocalDateTimeLength | src/ngx-my-date-picker/ngx-my-date-picker.input.ts:265-271 | the date and time before the offset are 23 characters for a four-digit year |
| Input.IsoStringSplit | src/ngx-my-date-picker/ngx-my-date-picker.input.ts:265-273 | both renderings are the local date and time followed by the offset text, which differs only in the hours padded |
| Input.OffsetTextInjective | src/ngx-my-date-picker/ngx-my-date-picker.input.ts:272-273 | two offsets with the same sign and minutes render alike exactly when their hours have the same magnitude |
| Input.OffsetTextAgrees | src/ngx-my-date-picker/ngx-my-date-picker.input.ts:272-273 | the offset text as written equals the corrected one exactly when getTimezoneOffset() is not positive or is a whole number of hours |
| Input.AsWrittenAgrees | src/ngx-my-date-picker/ngx-my-date-picker.input.ts:256-273 | the string as written equals the corrected one exactly when local time is not behind UTC or the offset is whole hours |
| Input.AsWrittenHalfHourBehind | src/ngx-my-date-picker/ngx-my-date-picker.input.ts:272 | with getTimezoneOffset() = 210 the code renders `-04:30`, where `-03:30` is meant |
| Input.LeadingZeroTwoDigits | src/ngx-my-date-picker/ngx-my-date-picker.input.ts:289-294 | a month or day 0..99 becomes exactly two digits reading back as itself, the same text `pad` gives |
| Input.LeadingZero | src/ngx-my-date-picker/ngx-my-date-picker.input.ts:289-294 | the `'0' + x` step below 10; LeadingZeroTwoDigits proves that a month or day 0..99 becomes two digits that read back and equal `pad`'s text |
| Input.DateFormatTextShape | src/ngx-my-date-picker/ngx-my-date-picker.input.ts:282-296 | for a valid date with a four-digit year the result is `yyyy-mm-dd`, each field reading back, and equal to the date part of getLocalISOString |
| Input.DateFormatText | src/ngx-my-date-picker/ngx-my-date-picker.input.ts:282-296 | the `year-MM-DD` text of convertDateFormat; DateFormatTextShape gives its ten characters and fields for a four-digit year and its agreement with the ISO string |
| Input.MergeComplete | src/ngx-my-date-picker/ngx-my-date-picker.input.ts:154-158 | well-typed entries copied over a full option record leave a full record |
| Input.ParsedOptions | src/ngx-my-date-picker/ngx-my-date-picker.input.ts:153-165 | every key supplied replaces the current value and every other key keeps it, except that minYear is raised to at least 1000 and maxYear lowered to at most 9999 |
| Input.ParsedYearBounds | src/ngx-my-date-picker/ngx-my-date-picker.input.ts:159-164 | after parseOptions, minYear >= 1000 and maxYear <= 9999 |
| Input.ParseOptionsIdempotent | src/ngx-my-date-picker/ngx-my-date-picker.input.ts:153-165 | passing the same options a second time changes nothing |
| Input.ParseNoOptions | src/ngx-my-date-picker/ngx-my-date-picker.input.ts:154-165 | with `undefined` options only the clamp acts, so options already in range, the defaults among them, stay as they are |
| Input.CopyStep | src/ngx-my-date-picker/ngx-my-date-picker.input.ts:155-157 | copying one more key moves it from pending to copied |
| Input.DatePickerDirective.constructor | src/ngx-my-date-picker/ngx-my-date-picker.input.ts:53-107 | the default options are complete, the remembered input text is empty and the selector is closed |
| Input.DatePickerDirective.ParseOptions | src/ngx-my-date-picker/ngx-my-date-picker.input.ts:153-165 | the key-by-key loop and the clamp leave exactly ParsedOptions of the old options |
| Input.DatePickerDirective.ConvertDateFormat | src/ngx-my-date-picker/ngx-my-date-picker.input.ts:282-296 | the month and day fields get their leading zero and the result is `year-MM-DD` |
| Input.DatePickerDirective.CloseSelector | src/ngx-my-date-picker/ngx-my-date-picker.input.ts:306-312 | an open selector is closed and the reason emitted; a closed one emits nothing |
| Input.DatePickerDirective.SetInputValue | src/ngx-my-date-picker/ngx-my-date-picker.input.ts:319-322 | the element and the remembered text both become the value |
| Input.DatePickerDirective.ClearDate | src/ngx-my-date-picker/ngx-my-date-picker.input.ts:298-304 | the empty date model, an invalid empty input and an empty form value are emitted in that order, the input is emptied and the selector closed, emitting reason 3 when it was open |
| Input.DatePickerDirective.UpdateModel | src/ngx-my-date-picker/ngx-my-date-picker.input.ts:314-317 | the form receives the corrected LocalIsoString of the date and the input shows its formatted text |
| Input.DatePickerDirective.OnKeyUp | src/ngx-my-date-picker/ngx-my-date-picker.input.ts:109-135 | Escape only closes the selector; for any other key the remembered text ends equal to the element's; a valid date is chosen and sent to the form as the corrected LocalIsoString; the invalid-text branch runs only when the text changed, clearing on empty text |

## Left out

- `DOM and framework glue`: the template and styles, `ElementRef` and `Renderer`, the
  component's click listener, component creation in `openCalendar`, `closeCalendar` and
  `toggleCalendar`, `onClick`, `ngOnChanges`, the `setTimeout` in `openCalendar`, and the
  `ControlValueAccessor` registration. They are Angular wiring, not calendar logic.
- `UtilService`: its bodies are not part of this model. `isDisabledDay`, `isDateValid`,
  `isMonthLabelValid`, `isYearLabelValid`, `isMonthDisabledByDisableUntil`,
  `isMonthDisabledByDisableSince`, `getWeekNumber`, `getDateModel` and `parseDefaultMonth` are
  function values nothing is assumed about. `formatDate` is used only by `writeValue`, which is
  left out.
- `writeValue` and `parseISO8601`: they parse strings with the host `Date`.
  `ConvertDateFormat` takes the year, month and day that `parseISO8601` would produce.
- `getToday` and the clock: `today` is a parameter. `monthStartIdx` starts from the current
  date, but the day, month and year it then sets make the clock's value irrelevant.
- `getTimezoneOffset`: the offset is a field of the `DateTime` value.
- `Number(event.target.value)` in `userYearInput`: `UserYearInput` takes the number.
- JavaScript's handling of years 0..99 in `new Date(y, m, d)`: the model counts days on the
  proleptic Gregorian calendar for every year.
- `Input.Pad`: it takes an integer. The one caller passing a fraction is the offset's hours,
  whose floor `FloorDiv` takes first. JavaScript's exponent notation for numbers of 21 or more
  digits is not modelled.
- `Options.MonthLabel` and `Options.DayLabel`: a missing label reads as the empty string, where
  JavaScript yields `undefined`.
- `Component.DatePicker.Initialize`: the component keeps the directive's option record as a
  value. Where JavaScript shares one object, later changes to the directive's options are not
  seen. The input width and height, `selectorWidth` and the storing of the two callbacks are
  not modelled.
- `Component.DatePicker.Initialize`: it is split into `TakeOptions`, `SelectInitial` and
  `SetVisibleMonth`. `GenerateCalendar` is split likewise into `BuildFirstWeek` and
  `BuildLaterWeek` for its first and later rows. The statements and their order are those of
  the code.
- `Input.DatePickerDirective.ParseOptions`: the supplied options must be well typed, as the
  TypeScript type `IMyOptions` demands. A value of the wrong type for a key is not modelled.
- `Input.DatePickerDirective.ConvertDateFormat`: the fields `month` and `dt` hold the rendered
  text. In JavaScript a value of 10 or more stays a number, which concatenates to the same text.
- `Input.LocalIsoStringShape` and `Input.LocalIsoStringOffset`: they are stated for four-digit
  years and offsets under a day. Other years change the length of the year field.
- `Input.DatePickerDirective.UpdateModel`: it renders with the corrected `LocalIsoString`. The
  code as written is `LocalIsoStringAsWritten`; see Findings.
- `Input.DatePickerDirective.OnKeyUp`: on a valid date it passes through `UpdateModel`, so the
  form receives the corrected `LocalIsoString`. The code as written sends
  `LocalIsoStringAsWritten`, which differs for offsets behind UTC that are not whole hours
  (UTC-03:30 gives `-04:30`); `AsWrittenAgrees` states exactly when the two agree.
- `Component.DatePicker.constructor`: the model starts with `opts` equal to `DefaultOptions`.
  The code declares `opts` without a value, so it is undefined until `initialize`, and a click
  on the component before then would fail in the listener that reads
  `opts.editableMonthAndYear`. The directive's `openCalendar` calls `initialize` right after
  creating the component, so no handler runs on the default record there.
- `Component.DatePicker.SetHeaderBtnDisabledState`: the probe dates live in the functions
  `PrevMonthLastDay`, `PrevYearLastDay`, `NextMonthFirstDay` and `NextYearFirstDay`. Each is the
  literal date of the code.
- Concurrency and timing: there are none in the modelled code, apart from the `setTimeout`
  left out above.

## Findings

| source | as written | input that shows it | evidently intended | confidence | as-written member | corrected member |
|---|---|---|---|---|---|---|
| src/ngx-my-date-picker/ngx-my-date-picker.input.ts:272 | the offset hours are `pad(tzo / 60)`, and `pad` floors before taking the magnitude, so a negative fractional hour count is rounded away from zero | `getTimezoneOffset()` = 210 (UTC-03:30): `tzo / 60` = -3.5 floors to -4 and renders `-04:30` | the hours of the offset's magnitude, `-03:30`, consistent with the minutes field `pad(tzo % 60)` = `30` | not executed | Input.LocalIsoStringAsWritten, Input.AsWrittenHalfHourBehind | Input.LocalIsoString, Input.LocalIsoStringOffset |
