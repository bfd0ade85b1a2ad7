/** The records the date picker passes around (the IMy* interfaces of the library). */
module Types {

  datatype Option<T> = None | Some(value: T)

  /** IMyDate: a calendar date. Date(0, 0, 0) stands for "no date". */
  datatype Date = Date(year: int, month: int, day: int)

  const NoDate: Date := Date(0, 0, 0)

  /** IMyDateRange: an inclusive range of dates. */
  datatype DateRange = DateRange(begin: Date, end: Date)

  /** IMyMonth: a month as the header shows it (its label, its number 1..12, its year). */
  datatype Month = Month(monthTxt: string, monthNbr: int, year: int)

  const NoMonth: Month := Month("", 0, 0)

  /** The `cmo` tag of a calendar cell: the PREV_MONTH, CURR_MONTH and NEXT_MONTH constants (1, 2, 3). */
  datatype MonthRelation = PrevMonth | CurrMonth | NextMonth

  /** IMyCalendarDay: one cell of the 6 x 7 grid. `dayNbr` is its weekday, 0 = Sunday .. 6 = Saturday. */
  datatype Day = Day(dateObj: Date, cmo: MonthRelation, currDay: bool, dayNbr: int, disabled: bool)

  /** IMyWeek: one row of the grid and its week number (0 when week numbers are not shown). */
  datatype Week = Week(week: seq<Day>, weekNbr: int)

  /** The fields of a host `Date` object read in local time, as its getters return them:
      `month` is `getMonth()` (0 = January) and `timezoneOffset` is `getTimezoneOffset()`,
      the minutes to add to local time to reach UTC. */
  datatype DateTime = DateTime(year: int, month: int, day: int, hours: int, minutes: int,
                               seconds: int, milliseconds: int, timezoneOffset: int)

  /** IMyDateModel as the date-model builder returns it for a chosen date. */
  datatype DateModel = DateModel(date: Date, jsdate: DateTime, formatted: string, epoc: int)

  /** `{number, weekday}` of the first and last day in a calendarViewChanged payload. */
  datatype DayOfMonth = DayOfMonth(number: int, weekday: string)

  /** IMyCalendarViewChanged. */
  datatype CalendarViewChanged = CalendarViewChanged(year: int, month: int, first: DayOfMonth, last: DayOfMonth)

  /** The disabling rules the day validator receives, in the order it takes them. */
  datatype DisableRules = DisableRules(disableUntil: Date, disableSince: Date, disableWeekends: bool,
                                       disableDates: seq<Date>, disableDateRanges: seq<DateRange>,
                                       enableDates: seq<Date>)

  function Max(a: int, b: int): int { if a >= b then a else b }

  function Abs(a: int): nat { if a >= 0 then a else -a }
}
