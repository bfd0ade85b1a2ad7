/** IMyOptions: the option record the directive keeps, its default values and typed access to
    the entries the calendar reads. The record is a map from option key to value, so that the
    key-by-key merge of caller options is a map update. */
module Options {
  import opened Types

  /** The option keys, named as the library names them. */
  datatype Key =
    | dayLabels | monthLabels | dateFormat | showTodayBtn | todayBtnTxt | firstDayOfWeek
    | sunHighlight | markCurrentDay | editableMonthAndYear | disableHeaderButtons
    | showWeekNumbers | disableUntil | disableSince | disableDates | enableDates
    | disableDateRanges | disableWeekends | alignSelectorRight | openSelectorTopOfInput
    | minYear | maxYear | showSelectorArrow | ariaLabelPrevMonth | ariaLabelNextMonth
    | ariaLabelPrevYear | ariaLabelNextYear

  datatype Value =
    | BoolV(b: bool)
    | IntV(i: int)
    | StrV(s: string)
    | DateV(d: Date)
    | DatesV(ds: seq<Date>)
    | RangesV(rs: seq<DateRange>)
    | DayLabelsV(dl: map<string, string>)
    | MonthLabelsV(ml: map<int, string>)

  type Options = map<Key, Value>

  /** The value of key `k` has the type IMyOptions declares for it. */
  predicate HasKind(k: Key, v: Value)
  {
    match k
    case dayLabels => v.DayLabelsV?
    case monthLabels => v.MonthLabelsV?
    case disableUntil | disableSince => v.DateV?
    case disableDates | enableDates => v.DatesV?
    case disableDateRanges => v.RangesV?
    case minYear | maxYear => v.IntV?
    case dateFormat | todayBtnTxt | firstDayOfWeek | ariaLabelPrevMonth | ariaLabelNextMonth
      | ariaLabelPrevYear | ariaLabelNextYear => v.StrV?
    case _ => v.BoolV?
  }

  /** Every present entry is well typed: what a caller may pass as (partial) options. */
  predicate WellTyped(o: Options)
  {
    forall k :: k in o ==> HasKind(k, o[k])
  }

  /** Every key is present and well typed: the directive's own option record. */
  predicate Complete(o: Options)
  {
    WellTyped(o) && forall k: Key :: k in o
  }

  /** The directive's MIN_YEAR and MAX_YEAR. */
  const MIN_YEAR: int := 1000
  const MAX_YEAR: int := 9999

  const DefaultMonthLabels: map<int, string> :=
    map[1 := "Jan", 2 := "Feb", 3 := "Mar", 4 := "Apr", 5 := "May", 6 := "Jun",
        7 := "Jul", 8 := "Aug", 9 := "Sep", 10 := "Oct", 11 := "Nov", 12 := "Dec"]

  const DefaultDayLabels: map<string, string> :=
    map["su" := "Sun", "mo" := "Mon", "tu" := "Tue", "we" := "Wed", "th" := "Thu",
        "fr" := "Fri", "sa" := "Sat"]

  /** The default value of each option. */
  function DefaultValue(k: Key): (v: Value)
    ensures HasKind(k, v)
  {
    match k
    case dayLabels => DayLabelsV(DefaultDayLabels)
    case monthLabels => MonthLabelsV(DefaultMonthLabels)
    case dateFormat => StrV("yyyy-mm-dd")
    case showTodayBtn => BoolV(true)
    case todayBtnTxt => StrV("Today")
    case firstDayOfWeek => StrV("mo")
    case sunHighlight => BoolV(true)
    case markCurrentDay => BoolV(true)
    case editableMonthAndYear => BoolV(true)
    case disableHeaderButtons => BoolV(true)
    case showWeekNumbers => BoolV(false)
    case disableUntil => DateV(NoDate)
    case disableSince => DateV(NoDate)
    case disableDates => DatesV([])
    case enableDates => DatesV([])
    case disableDateRanges => RangesV([])
    case disableWeekends => BoolV(false)
    case alignSelectorRight => BoolV(false)
    case openSelectorTopOfInput => BoolV(false)
    case minYear => IntV(MIN_YEAR)
    case maxYear => IntV(MAX_YEAR)
    case showSelectorArrow => BoolV(true)
    case ariaLabelPrevMonth => StrV("Previous Month")
    case ariaLabelNextMonth => StrV("Next Month")
    case ariaLabelPrevYear => StrV("Previous Year")
    case ariaLabelNextYear => StrV("Next Year")
  }

  const AllKeys: set<Key> := {
    dayLabels, monthLabels, dateFormat, showTodayBtn, todayBtnTxt, firstDayOfWeek,
    sunHighlight, markCurrentDay, editableMonthAndYear, disableHeaderButtons,
    showWeekNumbers, disableUntil, disableSince, disableDates, enableDates,
    disableDateRanges, disableWeekends, alignSelectorRight, openSelectorTopOfInput,
    minYear, maxYear, showSelectorArrow, ariaLabelPrevMonth, ariaLabelNextMonth,
    ariaLabelPrevYear, ariaLabelNextYear }

  /** The default option record of the directive. */
  const DefaultOptions: Options := map k | k in AllKeys :: DefaultValue(k)

  /** The default record sets every key, each with a value of the declared type, and its year
      bounds are MIN_YEAR and MAX_YEAR. */
  lemma DefaultsComplete()
    ensures Complete(DefaultOptions)
    ensures MinYear(DefaultOptions) == MIN_YEAR && MaxYear(DefaultOptions) == MAX_YEAR
  {
    forall k: Key ensures k in AllKeys {
      match k
      case dayLabels | monthLabels | dateFormat | showTodayBtn | todayBtnTxt | firstDayOfWeek
        | sunHighlight | markCurrentDay | editableMonthAndYear | disableHeaderButtons
        | showWeekNumbers | disableUntil | disableSince | disableDates | enableDates
        | disableDateRanges | disableWeekends | alignSelectorRight | openSelectorTopOfInput
        | minYear | maxYear | showSelectorArrow | ariaLabelPrevMonth | ariaLabelNextMonth
        | ariaLabelPrevYear | ariaLabelNextYear => {}
    }
  }

  // Typed reads of the entries the calendar uses.

  function MinYear(o: Options): int requires Complete(o) { o[minYear].i }
  function MaxYear(o: Options): int requires Complete(o) { o[maxYear].i }
  function FirstDayOfWeek(o: Options): string requires Complete(o) { o[firstDayOfWeek].s }
  function DateFormat(o: Options): string requires Complete(o) { o[dateFormat].s }
  function DayLabels(o: Options): map<string, string> requires Complete(o) { o[dayLabels].dl }
  function MonthLabels(o: Options): map<int, string> requires Complete(o) { o[monthLabels].ml }
  function ShowWeekNumbers(o: Options): bool requires Complete(o) { o[showWeekNumbers].b }
  function DisableHeaderButtons(o: Options): bool requires Complete(o) { o[disableHeaderButtons].b }
  function EditableMonthAndYear(o: Options): bool requires Complete(o) { o[editableMonthAndYear].b }
  function DisableUntil(o: Options): Date requires Complete(o) { o[disableUntil].d }
  function DisableSince(o: Options): Date requires Complete(o) { o[disableSince].d }

  /** The disabling rules of the options, as the day validator takes them. */
  function Rules(o: Options): DisableRules
    requires Complete(o)
  {
    DisableRules(o[disableUntil].d, o[disableSince].d, o[disableWeekends].b,
                 o[disableDates].ds, o[disableDateRanges].rs, o[enableDates].ds)
  }

  /** `opts.monthLabels[m]`; a missing label reads as the empty string. */
  function MonthLabel(labels: map<int, string>, m: int): string
  {
    if m in labels then labels[m] else ""
  }

  /** `opts.dayLabels[key]`; a missing label reads as the empty string. */
  function DayLabel(labels: map<string, string>, key: string): string
  {
    if key in labels then labels[key] else ""
  }
}
