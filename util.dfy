/** The UtilService collaborators the component and the directive call. Their bodies are not
    part of this model: each is a function value supplied from outside, and nothing is
    assumed about what it returns. */
module Util {
  import opened Types

  datatype UtilService = UtilService(
    /** isDisabledDay(date, disableUntil, disableSince, disableWeekends, disableDates,
        disableDateRanges, enableDates) */
    isDisabledDay: (Date, DisableRules) -> bool,
    /** isDateValid(text, dateFormat, minYear, maxYear, <disabling rules>, monthLabels):
        the date the text denotes, or Date(0, 0, 0). */
    isDateValid: (string, string, int, int, DisableRules, map<int, string>) -> Date,
    /** isMonthLabelValid(text, monthLabels): a month number, or -1. */
    isMonthLabelValid: (string, map<int, string>) -> int,
    /** isYearLabelValid(year, minYear, maxYear): the year, or -1. */
    isYearLabelValid: (int, int, int) -> int,
    /** isMonthDisabledByDisableUntil(lastDayOfMonth, disableUntil) */
    isMonthDisabledByDisableUntil: (Date, Date) -> bool,
    /** isMonthDisabledByDisableSince(firstDayOfMonth, disableSince) */
    isMonthDisabledByDisableSince: (Date, Date) -> bool,
    /** getWeekNumber(date) */
    getWeekNumber: Date -> int,
    /** getDateModel(date, dateFormat, monthLabels) */
    getDateModel: (Date, string, map<int, string>) -> DateModel,
    /** parseDefaultMonth(text) */
    parseDefaultMonth: string -> Month
  )

  /** The date validator found a date: none of its fields is 0. */
  predicate IsFound(d: Date)
  {
    d.day != 0 && d.month != 0 && d.year != 0
  }
}
