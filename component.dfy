/** The calendar component NgxMyDatePicker: the month shown, the 6 x 7 grid of its days, the
    four header buttons, the weekday headings and the month/year edit fields. `today` is an
    argument of every handler that reads the clock, and the two callbacks of the component
    (dateChanged, calendarViewChanged) are the values the handlers return. */
module Component {
  import opened Types
  import opened Calendar
  import opened Options
  import opened Util
  import opened Grid

  /** The disabled state of the header buttons: previous/next month, previous/next year. */
  datatype HeaderButtons = HeaderButtons(prevMonth: bool, nextMonth: bool, prevYear: bool, nextYear: bool)

  /** The date the previous-month button checks against `disableUntil`: the last day of the
      month before, with the January wrap written out. */
  function PrevMonthLastDay(m: int, y: int): Date
  {
    var pm, py := if m == 1 then 12 else m - 1, if m == 1 then y - 1 else y;
    Date(py, pm, DaysInMonth(pm, py))
  }

  /** The date the previous-year button checks against `disableUntil`: the last day of the
      same month a year back. */
  function PrevYearLastDay(m: int, y: int): Date
  {
    Date(y - 1, m, DaysInMonth(m, y - 1))
  }

  /** The date the next-month button checks against `disableSince`: the first of the month
      after, with the December wrap written out. */
  function NextMonthFirstDay(m: int, y: int): Date
  {
    Date(if m == 12 then y + 1 else y, if m == 12 then 1 else m + 1, 1)
  }

  /** The date the next-year button checks against `disableSince`. */
  function NextYearFirstDay(m: int, y: int): Date
  {
    Date(y + 1, m, 1)
  }

  /** `setHeaderBtnDisabledState(m, y)`: a button is disabled when it would leave the year
      range, or when header rules are on and the date it probes is ruled out. */
  function HeaderButtonsFor(m: int, y: int, opts: Options, util: UtilService): HeaderButtons
    requires Complete(opts)
  {
    var rules := DisableHeaderButtons(opts);
    var dpm := rules && util.isMonthDisabledByDisableUntil(PrevMonthLastDay(m, y), DisableUntil(opts));
    var dpy := rules && util.isMonthDisabledByDisableUntil(PrevYearLastDay(m, y), DisableUntil(opts));
    var dnm := rules && util.isMonthDisabledByDisableSince(NextMonthFirstDay(m, y), DisableSince(opts));
    var dny := rules && util.isMonthDisabledByDisableSince(NextYearFirstDay(m, y), DisableSince(opts));
    HeaderButtons((m == 1 && y == MinYear(opts)) || dpm, (m == 12 && y == MaxYear(opts)) || dnm,
                  y - 1 < MinYear(opts) || dpy, y + 1 > MaxYear(opts) || dny)
  }

  /** The dates the month buttons probe are the neighbours of the month shown: the day before
      its first day and the day after its last day, each a date of a month 1..12. */
  lemma MonthButtonProbes(m: int, y: int)
    requires 1 <= m <= 12
    ensures var d := PrevMonthLastDay(m, y);
            1 <= d.month <= 12 && d.day == DaysInPrevMonth(m, y)
            && DaySerial(d.year, d.month, d.day) == DaySerial(y, m, 1) - 1
    ensures var d := NextMonthFirstDay(m, y);
            1 <= d.month <= 12 && DaySerial(d.year, d.month, d.day) == DaySerial(y, m, 1) + DaysInMonth(m, y)
  {
    NormalizeMonthSteps(y, m);
    var p := PrevMonthLastDay(m, y);
    assert DaySerial(p.year, p.month, p.day) == DaySerial(y, m - 1, DaysInPrevMonth(m, y)) by {
      NormalizeMonthSteps(p.year, p.month);
    }
    PrevMonthSerial(y, m, DaysInPrevMonth(m, y));
    var q := NextMonthFirstDay(m, y);
    assert DaySerial(q.year, q.month, q.day) == DaySerial(y, m + 1, 1) by {
      NormalizeMonthSteps(q.year, q.month);
    }
    NextMonthStart(y, m);
  }

  /** The date the previous-year button probes is the last day of the same month a year back:
      the day before the first of the month after it. */
  lemma YearButtonProbes(m: int, y: int)
    requires 1 <= m <= 12
    ensures var d := PrevYearLastDay(m, y);
            d.day == DaysInMonth(m, y - 1)
            && DaySerial(d.year, d.month, d.day) == DaySerial(y - 1, m + 1, 1) - 1
  {
    SerialOffset(y - 1, m, DaysInMonth(m, y - 1));
    NextMonthStart(y - 1, m);
  }

  /** At the edges of the year range: with header rules off, a month button is disabled
      exactly at January / December of the first / last year, and a year button exactly when
      the year step would leave the range; a disabled month button at an edge comes with a
      disabled year button. */
  lemma HeaderButtonsAtBounds(m: int, y: int, opts: Options, util: UtilService)
    requires Complete(opts)
    ensures var h := HeaderButtonsFor(m, y, opts, util);
            && (!DisableHeaderButtons(opts) ==>
                  && (h.prevMonth <==> m == 1 && y == MinYear(opts))
                  && (h.nextMonth <==> m == 12 && y == MaxYear(opts))
                  && (h.prevYear <==> y - 1 < MinYear(opts))
                  && (h.nextYear <==> y + 1 > MaxYear(opts)))
            && (m == 1 && y == MinYear(opts) ==> h.prevMonth && h.prevYear)
            && (m == 12 && y == MaxYear(opts) ==> h.nextMonth && h.nextYear)
            && (MinYear(opts) <= y - 1 && y + 1 <= MaxYear(opts) && !DisableHeaderButtons(opts) ==>
                  h == HeaderButtons(false, false, false, false))
  {
  }

  /** The month the previous/next-month buttons move to from `vm`: one month back or on
      (`delta` is -1 or 1), carried by the host Date, labelled from the month labels. */
  function StepMonth(vm: Month, delta: int, labels: map<int, string>): (r: Month)
    ensures 1 <= r.monthNbr <= 12
    ensures r.year * 12 + r.monthNbr == vm.year * 12 + vm.monthNbr + delta
    ensures r.monthTxt == MonthLabel(labels, r.monthNbr)
  {
    var ym := NormalizeMonth(vm.year, vm.monthNbr + delta);
    Month(MonthLabel(labels, ym.1), ym.1, ym.0)
  }

  /** From a month 1..12, one month back wraps January to December of the year before and one
      month on wraps December to January of the year after; otherwise only the month moves. */
  lemma StepMonthWraps(vm: Month, labels: map<int, string>)
    requires 1 <= vm.monthNbr <= 12
    ensures var p := StepMonth(vm, -1, labels);
            (p.monthNbr, p.year) == if vm.monthNbr == 1 then (12, vm.year - 1) else (vm.monthNbr - 1, vm.year)
    ensures var n := StepMonth(vm, 1, labels);
            (n.monthNbr, n.year) == if vm.monthNbr == 12 then (1, vm.year + 1) else (vm.monthNbr + 1, vm.year)
  {
    NormalizeMonthSteps(vm.year, vm.monthNbr);
  }

  /** Next month undoes previous month and the other way round, from any month 1..12. */
  lemma StepMonthRoundTrip(vm: Month, labels: map<int, string>)
    requires 1 <= vm.monthNbr <= 12
    ensures var back := StepMonth(StepMonth(vm, -1, labels), 1, labels);
            back.monthNbr == vm.monthNbr && back.year == vm.year
    ensures var again := StepMonth(StepMonth(vm, 1, labels), -1, labels);
            again.monthNbr == vm.monthNbr && again.year == vm.year
  {
    var back := StepMonth(StepMonth(vm, -1, labels), 1, labels);
    MonthPairUnique((back.year, back.monthNbr), (vm.year, vm.monthNbr));
    var again := StepMonth(StepMonth(vm, 1, labels), -1, labels);
    MonthPairUnique((again.year, again.monthNbr), (vm.year, vm.monthNbr));
  }

  /** The weekday headings: seven day labels starting at weekday `dayIdx` and wrapping after
      Saturday, or none when the first day of the week was not found. */
  function WeekDayLabels(labels: map<string, string>, dayIdx: int): (r: seq<string>)
    requires -1 <= dayIdx <= 6
    ensures dayIdx == -1 ==> r == []
    ensures dayIdx != -1 ==> |r| == 7 && r[0] == DayLabel(labels, WeekDayOpts[dayIdx])
    ensures dayIdx != -1 ==> forall c :: 0 <= c < 7 ==> r[c] == DayLabel(labels, WeekDayOpts[(dayIdx + c) % 7])
  {
    if dayIdx == -1 then [] else seq(7, c => HeadingAt(labels, dayIdx, c))
  }

  /** The heading of column `c` when the week starts at weekday `dayIdx`. */
  function HeadingAt(labels: map<string, string>, dayIdx: int, c: int): string
  {
    DayLabel(labels, WeekDayOpts[(dayIdx + c) % 7])
  }

  /** The loop of `initialize` that pushes the weekday headings: it starts at weekday
      `first` and steps on, going back to Sunday after Saturday. */
  method WeekDayRow(labels: map<string, string>, first: int) returns (row: seq<string>)
    requires 0 <= first <= 6
    ensures row == WeekDayLabels(labels, first)
  {
    ghost var heads := WeekDayLabels(labels, first);
    var idx := first;
    row := [];
    for i := 0 to 7
      invariant 0 <= idx < 7 && idx == (first + i) % 7
      invariant row == heads[..i]
    {
      HeadingStep(labels, first, i, idx);
      row := row + [DayLabel(labels, WeekDayOpts[idx])];
      idx := if WeekDayOpts[idx] == "sa" then 0 else idx + 1;
    }
    assert heads[..7] == heads;
  }

  /** One step of the heading loop: the label pushed is the heading of column `i`, and the
      index moves on to the weekday of column `i + 1`. */
  lemma HeadingStep(labels: map<string, string>, first: int, i: int, idx: int)
    requires 0 <= first <= 6 && 0 <= i < 7
    requires 0 <= idx < 7 && idx == (first + i) % 7
    ensures WeekDayLabels(labels, first)[i] == HeadingAt(labels, first, i) == DayLabel(labels, WeekDayOpts[idx])
    ensures (if WeekDayOpts[idx] == "sa" then 0 else idx + 1) == (first + i + 1) % 7
  {
    assert (if WeekDayOpts[idx] == "sa" then 0 else idx + 1) == (first + i + 1) % 7 by {
      SaturdayLast(idx);
      WeekdayStep(first + i);
    }
  }

  /** The heading of every column is the label of the weekday of every cell below it. */
  lemma HeadingsMatchCells(m: int, y: int, today: Date, dayIdx: int, opts: Options, util: UtilService)
    requires Complete(opts) && 0 <= dayIdx <= 6
    requires 1 <= m <= 12
    ensures var g := CalendarGrid(m, y, today, dayIdx, opts, util);
            var heads := WeekDayLabels(DayLabels(opts), dayIdx);
            forall w, c :: 0 <= w < 6 && 0 <= c < 7 ==>
              heads[c] == DayLabel(DayLabels(opts), Weekday(g[w].week[c].dateObj))
  {
    var g := CalendarGrid(m, y, today, dayIdx, opts, util);
    GridFlags(m, y, today, dayIdx, opts, util);
    GridColumnWeekdays(m, y, today, dayIdx, opts, util);
    forall w, c | 0 <= w < 6 && 0 <= c < 7
      ensures WeekDayLabels(DayLabels(opts), dayIdx)[c] == DayLabel(DayLabels(opts), Weekday(g[w].week[c].dateObj))
    {
      HeadingOfDate(DayLabels(opts), dayIdx, c, g[w].week[c].dateObj);
    }
  }

  /** A date on weekday `dayIdx + c` (mod 7) carries the label of heading c. */
  lemma HeadingOfDate(labels: map<string, string>, dayIdx: int, c: int, date: Date)
    requires 0 <= dayIdx <= 6 && 0 <= c < 7
    requires DayNumber(date) == (dayIdx + c) % 7
    ensures WeekDayLabels(labels, dayIdx)[c] == DayLabel(labels, Weekday(date))
  {
    assert WeekDayLabels(labels, dayIdx)[c] == HeadingAt(labels, dayIdx, c);
  }

  /** The calendarViewChanged payload for month `m` of year `y`. */
  function ViewChanged(m: int, y: int): CalendarViewChanged
  {
    var n := DaysInMonth(m, y);
    CalendarViewChanged(y, m, DayOfMonth(1, Weekday(Date(y, m, 1))), DayOfMonth(n, Weekday(Date(y, m, n))))
  }

  /** The payload's last day is the month's length, and its weekday lies length - 1 days after
      the weekday of the first. */
  lemma ViewChangedDays(m: int, y: int)
    ensures var v := ViewChanged(m, y);
            && v.first.number == 1 && v.last.number == DaysInMonth(m, y)
            && v.last.weekday == WeekDayOpts[(DayNumber(Date(y, m, 1)) + DaysInMonth(m, y) - 1) % 7]
  {
    DayNumberOffset(y, m, DaysInMonth(m, y));
  }

  /** `setVisibleMonth`: the (month, year) shown on opening. A selected date comes first, then a
      selected (default) month, then today. */
  function VisibleMonthFor(selectedDate: Date, selectedMonth: Month, today: Date): (my: (int, int))
    ensures selectedDate != NoDate ==> my == (selectedDate.month, selectedDate.year)
    ensures selectedDate == NoDate && (selectedMonth.year != 0 || selectedMonth.monthNbr != 0) ==>
              my == (selectedMonth.monthNbr, selectedMonth.year)
    ensures selectedDate == NoDate && selectedMonth.year == 0 && selectedMonth.monthNbr == 0 ==>
              my == (today.month, today.year)
  {
    if selectedDate.year == 0 && selectedDate.month == 0 && selectedDate.day == 0 then
      if selectedMonth.year == 0 && selectedMonth.monthNbr == 0 then (today.month, today.year)
      else (selectedMonth.monthNbr, selectedMonth.year)
    else (selectedDate.month, selectedDate.year)
  }

  /** Key codes on which the month and year inputs do nothing: Enter, left and right arrow. */
  predicate IsNavigationKey(keyCode: int)
  {
    keyCode == 13 || keyCode == 37 || keyCode == 39
  }

  class DatePicker {
    const util: UtilService
    var opts: Options
    var visibleMonth: Month
    var selectedMonth: Month
    var selectedDate: Date
    var weekDays: seq<string>
    var dates: seq<Week>
    var disableTodayBtn: bool
    var dayIdx: int

    var editMonth: bool
    var invalidMonth: bool
    var editYear: bool
    var invalidYear: bool

    var prevMonthDisabled: bool
    var nextMonthDisabled: bool
    var prevYearDisabled: bool
    var nextYearDisabled: bool

    /** The options are a full record and dayIdx is a result of indexOf on the seven weekdays. */
    ghost predicate Valid()
      reads this
    {
      Complete(opts) && -1 <= dayIdx <= 6
    }

    ghost function Header(): HeaderButtons
      reads this
    {
      HeaderButtons(prevMonthDisabled, nextMonthDisabled, prevYearDisabled, nextYearDisabled)
    }

    /** The grid and the header buttons are those of month `m` of year `y`. */
    ghost predicate Shows(m: int, y: int, today: Date)
      reads this
      requires Valid()
    {
      dates == CalendarGrid(m, y, today, dayIdx, opts, util) && Header() == HeaderButtonsFor(m, y, opts, util)
    }

    ghost function EditState(): (bool, bool, bool, bool)
      reads this
    {
      (editMonth, invalidMonth, editYear, invalidYear)
    }

    /** The field values of a new component; the options arrive with `initialize`. */
    constructor (util: UtilService)
      ensures this.util == util && opts == DefaultOptions && Valid()
      ensures visibleMonth == NoMonth && selectedMonth == NoMonth && selectedDate == NoDate
      ensures weekDays == [] && dates == [] && !disableTodayBtn && dayIdx == 0
      ensures EditState() == (false, false, false, false)
      ensures Header() == HeaderButtons(false, false, false, false)
    {
      DefaultsComplete();
      this.util := util;
      opts := DefaultOptions;
      visibleMonth := NoMonth;
      selectedMonth := NoMonth;
      selectedDate := NoDate;
      weekDays := [];
      dates := [];
      disableTodayBtn := false;
      dayIdx := 0;
      editMonth, invalidMonth, editYear, invalidYear := false, false, false, false;
      prevMonthDisabled, nextMonthDisabled, prevYearDisabled, nextYearDisabled := false, false, false, false;
    }

    /** `initialize`: takes the options, rotates the weekday headings, selects the date of the
        input text (or else the default month) and shows the month that setVisibleMonth picks. */
    method Initialize(o: Options, defaultMonth: Option<string>, inputValue: string, today: Date)
        returns (cvc: CalendarViewChanged)
      requires Complete(o)
      modifies this`opts, this`weekDays, this`disableTodayBtn, this`dayIdx, this`selectedDate,
               this`selectedMonth, this`visibleMonth, this`dates, this`prevMonthDisabled,
               this`nextMonthDisabled, this`prevYearDisabled, this`nextYearDisabled
      ensures Valid() && opts == o
      ensures disableTodayBtn == util.isDisabledDay(today, Rules(o))
      ensures dayIdx == IndexOf(WeekDayOpts, FirstDayOfWeek(o))
      ensures weekDays == WeekDayLabels(DayLabels(o), dayIdx)
      ensures var date := util.isDateValid(inputValue, DateFormat(o), MinYear(o), MaxYear(o), Rules(o), MonthLabels(o));
              && selectedDate == (if IsFound(date) then date else old(selectedDate))
              && selectedMonth == (if !IsFound(date) && defaultMonth.Some? && defaultMonth.value != ""
                                   then util.parseDefaultMonth(defaultMonth.value) else old(selectedMonth))
      ensures var my := VisibleMonthFor(selectedDate, selectedMonth, today);
              && visibleMonth == Month(MonthLabel(MonthLabels(opts), my.0), my.0, my.1)
              && Shows(my.0, my.1, today) && cvc == ViewChanged(my.0, my.1)
    {
      TakeOptions(o, today);
      SelectInitial(defaultMonth, inputValue);
      cvc := SetVisibleMonth(today);
    }

    /** The first half of `initialize`: the options, the today button and the weekday headings. */
    method TakeOptions(o: Options, today: Date)
      requires Complete(o)
      modifies this`opts, this`weekDays, this`disableTodayBtn, this`dayIdx
      ensures Valid() && opts == o
      ensures disableTodayBtn == util.isDisabledDay(today, Rules(o))
      ensures dayIdx == IndexOf(WeekDayOpts, FirstDayOfWeek(o))
      ensures weekDays == WeekDayLabels(DayLabels(o), dayIdx)
    {
      opts := o;
      weekDays := [];
      disableTodayBtn := util.isDisabledDay(today, Rules(o));
      dayIdx := IndexOf(WeekDayOpts, FirstDayOfWeek(o));
      if dayIdx != -1 {
        weekDays := WeekDayRow(DayLabels(o), dayIdx);
      }
    }

    /** The second half of `initialize`: a date the input text denotes is selected; failing
        that, a non-empty default month is. */
    method SelectInitial(defaultMonth: Option<string>, inputValue: string)
      requires Valid()
      modifies this`selectedDate, this`selectedMonth
      ensures var date := util.isDateValid(inputValue, DateFormat(opts), MinYear(opts), MaxYear(opts), Rules(opts), MonthLabels(opts));
              && selectedDate == (if IsFound(date) then date else old(selectedDate))
              && selectedMonth == (if !IsFound(date) && defaultMonth.Some? && defaultMonth.value != ""
                                   then util.parseDefaultMonth(defaultMonth.value) else old(selectedMonth))
    {
      var date := util.isDateValid(inputValue, DateFormat(opts), MinYear(opts), MaxYear(opts), Rules(opts), MonthLabels(opts));
      if date.day != 0 && date.month != 0 && date.year != 0 {
        selectedDate := date;
      } else if defaultMonth.Some? && defaultMonth.value != "" {
        selectedMonth := util.parseDefaultMonth(defaultMonth.value);
      }
    }

    /** `resetMonthYearEdit`. */
    method ResetMonthYearEdit()
      modifies this`editMonth, this`editYear, this`invalidMonth, this`invalidYear
      ensures EditState() == (false, false, false, false)
    {
      editMonth := false;
      editYear := false;
      invalidMonth := false;
      invalidYear := false;
    }

    /** `editMonthClicked`: the month label turns into an input only when editing is allowed. */
    method EditMonthClicked()
      requires Valid()
      modifies this`editMonth
      ensures editMonth == (old(editMonth) || EditableMonthAndYear(opts))
    {
      if EditableMonthAndYear(opts) {
        editMonth := true;
      }
    }

    /** `editYearClicked`. */
    method EditYearClicked()
      requires Valid()
      modifies this`editYear
      ensures editYear == (old(editYear) || EditableMonthAndYear(opts))
    {
      if EditableMonthAndYear(opts) {
        editYear := true;
      }
    }

    /** `userMonthInput`: a key in the month input. A month label the validator accepts ends the
        edit and, when it names another month, shows that month; one it refuses marks the input
        invalid and keeps editing. */
    method UserMonthInput(keyCode: int, text: string, today: Date) returns (cvc: Option<CalendarViewChanged>)
      requires Valid()
      modifies this`editMonth, this`invalidMonth, this`visibleMonth, this`dates, this`prevMonthDisabled,
               this`nextMonthDisabled, this`prevYearDisabled, this`nextYearDisabled
      ensures IsNavigationKey(keyCode) ==> unchanged(this) && cvc == None
      ensures !IsNavigationKey(keyCode) ==>
                var m := util.isMonthLabelValid(text, MonthLabels(opts));
                && invalidMonth == (m == -1)
                && editMonth == (old(editMonth) && m == -1)
                && (cvc.Some? <==> m != -1 && m != old(visibleMonth.monthNbr))
                && (cvc.None? ==> visibleMonth == old(visibleMonth) && dates == old(dates) && Header() == old(Header()))
                && (cvc.Some? ==>
                      && visibleMonth == Month(MonthLabel(MonthLabels(opts), m), m, old(visibleMonth.year))
                      && Shows(m, visibleMonth.year, today) && cvc.value == ViewChanged(m, visibleMonth.year))
    {
      if keyCode == 13 || keyCode == 37 || keyCode == 39 {
        return None;
      }
      invalidMonth := false;
      var m := util.isMonthLabelValid(text, MonthLabels(opts));
      cvc := None;
      if m != -1 {
        editMonth := false;
        if m != visibleMonth.monthNbr {
          visibleMonth := Month(MonthLabel(MonthLabels(opts), m), m, visibleMonth.year);
          var v := GenerateCalendar(m, visibleMonth.year, today);
          cvc := Some(v);
        }
      } else {
        invalidMonth := true;
      }
    }

    /** `userYearInput`, given the number the input text converts to. */
    method UserYearInput(keyCode: int, value: int, today: Date) returns (cvc: Option<CalendarViewChanged>)
      requires Valid()
      modifies this`editYear, this`invalidYear, this`visibleMonth, this`dates, this`prevMonthDisabled,
               this`nextMonthDisabled, this`prevYearDisabled, this`nextYearDisabled
      ensures IsNavigationKey(keyCode) ==> unchanged(this) && cvc == None
      ensures !IsNavigationKey(keyCode) ==>
                var y := util.isYearLabelValid(value, MinYear(opts), MaxYear(opts));
                && invalidYear == (y == -1)
                && editYear == (old(editYear) && y == -1)
                && (cvc.Some? <==> y != -1 && y != old(visibleMonth.year))
                && (cvc.None? ==> visibleMonth == old(visibleMonth) && dates == old(dates) && Header() == old(Header()))
                && (cvc.Some? ==>
                      && visibleMonth == old(visibleMonth).(year := y)
                      && Shows(visibleMonth.monthNbr, y, today) && cvc.value == ViewChanged(visibleMonth.monthNbr, y))
    {
      if keyCode == 13 || keyCode == 37 || keyCode == 39 {
        return None;
      }
      invalidYear := false;
      var y := util.isYearLabelValid(value, MinYear(opts), MaxYear(opts));
      cvc := None;
      if y != -1 {
        editYear := false;
        if y != visibleMonth.year {
          visibleMonth := Month(visibleMonth.monthTxt, visibleMonth.monthNbr, y);
          var v := GenerateCalendar(visibleMonth.monthNbr, y, today);
          cvc := Some(v);
        }
      } else {
        invalidYear := true;
      }
    }

    /** `setVisibleMonth`: shows the month VisibleMonthFor picks. */
    method SetVisibleMonth(today: Date) returns (cvc: CalendarViewChanged)
      requires Valid()
      modifies this`visibleMonth, this`dates, this`prevMonthDisabled, this`nextMonthDisabled,
               this`prevYearDisabled, this`nextYearDisabled
      ensures var my := VisibleMonthFor(selectedDate, selectedMonth, today);
              && visibleMonth == Month(MonthLabel(MonthLabels(opts), my.0), my.0, my.1)
              && Shows(my.0, my.1, today) && cvc == ViewChanged(my.0, my.1)
    {
      var y, m := 0, 0;
      if selectedDate.year == 0 && selectedDate.month == 0 && selectedDate.day == 0 {
        if selectedMonth.year == 0 && selectedMonth.monthNbr == 0 {
          y, m := today.year, today.month;
        } else {
          y, m := selectedMonth.year, selectedMonth.monthNbr;
        }
      } else {
        y, m := selectedDate.year, selectedDate.month;
      }
      visibleMonth := Month(MonthLabel(MonthLabels(opts), m), m, y);
      cvc := GenerateCalendar(m, y, today);
    }

    /** `prevMonth`: the first of the shown month is built and moved back one month by the host
        Date; the month reached is shown. */
    method PrevMonth(today: Date) returns (cvc: CalendarViewChanged)
      requires Valid()
      modifies this`visibleMonth, this`dates, this`prevMonthDisabled, this`nextMonthDisabled,
               this`prevYearDisabled, this`nextYearDisabled
      ensures visibleMonth == StepMonth(old(visibleMonth), -1, MonthLabels(opts))
      ensures Shows(visibleMonth.monthNbr, visibleMonth.year, today)
      ensures cvc == ViewChanged(visibleMonth.monthNbr, visibleMonth.year)
    {
      var d := NormalizeMonth(visibleMonth.year, visibleMonth.monthNbr);
      var moved := NormalizeMonth(d.0, d.1 - 1);
      var y, m := moved.0, moved.1;
      MonthPairUnique(moved, NormalizeMonth(visibleMonth.year, visibleMonth.monthNbr - 1));
      visibleMonth := Month(MonthLabel(MonthLabels(opts), m), m, y);
      cvc := GenerateCalendar(m, y, today);
    }

    /** `nextMonth`. */
    method NextMonth(today: Date) returns (cvc: CalendarViewChanged)
      requires Valid()
      modifies this`visibleMonth, this`dates, this`prevMonthDisabled, this`nextMonthDisabled,
               this`prevYearDisabled, this`nextYearDisabled
      ensures visibleMonth == StepMonth(old(visibleMonth), 1, MonthLabels(opts))
      ensures Shows(visibleMonth.monthNbr, visibleMonth.year, today)
      ensures cvc == ViewChanged(visibleMonth.monthNbr, visibleMonth.year)
    {
      var d := NormalizeMonth(visibleMonth.year, visibleMonth.monthNbr);
      var moved := NormalizeMonth(d.0, d.1 + 1);
      var y, m := moved.0, moved.1;
      MonthPairUnique(moved, NormalizeMonth(visibleMonth.year, visibleMonth.monthNbr + 1));
      visibleMonth := Month(MonthLabel(MonthLabels(opts), m), m, y);
      cvc := GenerateCalendar(m, y, today);
    }

    /** `prevYear`: only the year of the shown month changes, by one. */
    method PrevYear(today: Date) returns (cvc: CalendarViewChanged)
      requires Valid()
      modifies this`visibleMonth, this`dates, this`prevMonthDisabled, this`nextMonthDisabled,
               this`prevYearDisabled, this`nextYearDisabled
      ensures visibleMonth == old(visibleMonth).(year := old(visibleMonth.year) - 1)
      ensures Shows(visibleMonth.monthNbr, visibleMonth.year, today)
      ensures cvc == ViewChanged(visibleMonth.monthNbr, visibleMonth.year)
    {
      visibleMonth := visibleMonth.(year := visibleMonth.year - 1);
      cvc := GenerateCalendar(visibleMonth.monthNbr, visibleMonth.year, today);
    }

    /** `nextYear`. */
    method NextYear(today: Date) returns (cvc: CalendarViewChanged)
      requires Valid()
      modifies this`visibleMonth, this`dates, this`prevMonthDisabled, this`nextMonthDisabled,
               this`prevYearDisabled, this`nextYearDisabled
      ensures visibleMonth == old(visibleMonth).(year := old(visibleMonth.year) + 1)
      ensures Shows(visibleMonth.monthNbr, visibleMonth.year, today)
      ensures cvc == ViewChanged(visibleMonth.monthNbr, visibleMonth.year)
    {
      visibleMonth := visibleMonth.(year := visibleMonth.year + 1);
      cvc := GenerateCalendar(visibleMonth.monthNbr, visibleMonth.year, today);
    }

    /** `todayClicked`: today is selected; the date model goes to the dateChanged callback. */
    method TodayClicked(today: Date) returns (selected: DateModel)
      requires Valid()
      ensures selected == util.getDateModel(today, DateFormat(opts), MonthLabels(opts))
    {
      selected := util.getDateModel(today, DateFormat(opts), MonthLabels(opts));
    }

    /** `cellClicked`: a day of the previous or next month moves the calendar there, a day of the
        month shown is selected; either way the month and year edits end. */
    method CellClicked(cell: Day, today: Date) returns (selected: Option<DateModel>, cvc: Option<CalendarViewChanged>)
      requires Valid()
      modifies this`visibleMonth, this`dates, this`prevMonthDisabled, this`nextMonthDisabled,
               this`prevYearDisabled, this`nextYearDisabled, this`editMonth, this`editYear,
               this`invalidMonth, this`invalidYear
      ensures EditState() == (false, false, false, false)
      ensures selected.Some? <==> cell.cmo == CurrMonth
      ensures cvc.Some? <==> cell.cmo != CurrMonth
      ensures cell.cmo == CurrMonth ==>
                && selected.value == util.getDateModel(cell.dateObj, DateFormat(opts), MonthLabels(opts))
                && visibleMonth == old(visibleMonth) && dates == old(dates) && Header() == old(Header())
      ensures cell.cmo != CurrMonth ==>
                && visibleMonth == StepMonth(old(visibleMonth), if cell.cmo == MonthRelation.PrevMonth then -1 else 1, MonthLabels(opts))
                && Shows(visibleMonth.monthNbr, visibleMonth.year, today)
                && cvc.value == ViewChanged(visibleMonth.monthNbr, visibleMonth.year)
    {
      selected, cvc := None, None;
      match cell.cmo {
        case PrevMonth =>
          var v := PrevMonth(today);
          cvc := Some(v);
        case CurrMonth =>
          selected := Some(util.getDateModel(cell.dateObj, DateFormat(opts), MonthLabels(opts)));
        case NextMonth =>
          var v := NextMonth(today);
          cvc := Some(v);
      }
      ResetMonthYearEdit();
    }

    /** `cellKeyDown`: Enter or Space on a cell that is not disabled acts as a click. */
    method CellKeyDown(keyCode: int, cell: Day, today: Date) returns (selected: Option<DateModel>, cvc: Option<CalendarViewChanged>)
      requires Valid()
      modifies this`visibleMonth, this`dates, this`prevMonthDisabled, this`nextMonthDisabled,
               this`prevYearDisabled, this`nextYearDisabled, this`editMonth, this`editYear,
               this`invalidMonth, this`invalidYear
      ensures !((keyCode == 13 || keyCode == 32) && !cell.disabled) ==> unchanged(this) && selected == None && cvc == None
      ensures (keyCode == 13 || keyCode == 32) && !cell.disabled ==>
                && EditState() == (false, false, false, false)
                && (selected.Some? <==> cell.cmo == CurrMonth)
                && (cvc.Some? <==> cell.cmo != CurrMonth)
                && (cell.cmo == CurrMonth ==>
                      && selected.value == util.getDateModel(cell.dateObj, DateFormat(opts), MonthLabels(opts))
                      && visibleMonth == old(visibleMonth) && dates == old(dates) && Header() == old(Header()))
                && (cell.cmo != CurrMonth ==>
                      && visibleMonth == StepMonth(old(visibleMonth), if cell.cmo == MonthRelation.PrevMonth then -1 else 1, MonthLabels(opts))
                      && Shows(visibleMonth.monthNbr, visibleMonth.year, today)
                      && cvc.value == ViewChanged(visibleMonth.monthNbr, visibleMonth.year))
    {
      selected, cvc := None, None;
      if (keyCode == 13 || keyCode == 32) && !cell.disabled {
        selected, cvc := CellClicked(cell, today);
      }
    }

    /** `setHeaderBtnDisabledState(m, y)`. */
    method SetHeaderBtnDisabledState(m: int, y: int)
      requires Valid()
      modifies this`prevMonthDisabled, this`nextMonthDisabled, this`prevYearDisabled, this`nextYearDisabled
      ensures Header() == HeaderButtonsFor(m, y, opts, util)
    {
      var dpm, dpy, dnm, dny := false, false, false, false;
      if DisableHeaderButtons(opts) {
        dpm := util.isMonthDisabledByDisableUntil(PrevMonthLastDay(m, y), DisableUntil(opts));
        dpy := util.isMonthDisabledByDisableUntil(PrevYearLastDay(m, y), DisableUntil(opts));
        dnm := util.isMonthDisabledByDisableSince(NextMonthFirstDay(m, y), DisableSince(opts));
        dny := util.isMonthDisabledByDisableSince(NextYearFirstDay(m, y), DisableSince(opts));
      }
      prevMonthDisabled := (m == 1 && y == MinYear(opts)) || dpm;
      prevYearDisabled := y - 1 < MinYear(opts) || dpy;
      nextMonthDisabled := (m == 12 && y == MaxYear(opts)) || dnm;
      nextYearDisabled := y + 1 > MaxYear(opts) || dny;
    }

    /** `generateCalendar(m, y)`: builds the six weeks of month `m` of year `y` row by row, the
        way the nested loops of generateCalendar push them, sets the header buttons and returns the
        calendarViewChanged payload. The result is CalendarGrid, whose shape Grid proves. */
    method GenerateCalendar(m: int, y: int, today: Date) returns (cvc: CalendarViewChanged)
      requires Valid()
      modifies this`dates, this`prevMonthDisabled, this`nextMonthDisabled, this`prevYearDisabled,
               this`nextYearDisabled
      ensures Shows(m, y, today)
      ensures cvc == ViewChanged(m, y)
    {
      var opts, util, dayIdx := this.opts, this.util, this.dayIdx;
      var weeks: seq<Week> := [];
      var monthStart := MonthStartIdx(y, m, dayIdx);
      var dInThisM := DaysInMonth(m, y);

      var dayNbr := 1;
      var cmo := MonthRelation.PrevMonth;
      for i := 1 to 7
        invariant |weeks| == i - 1 && WeeksBuilt(weeks, m, y, today, dayIdx, opts, util)
        invariant i == 1 ==> cmo == MonthRelation.PrevMonth && dayNbr == 1
        invariant i > 1 ==> RestState(7 * (i - 1), cmo, dayNbr, monthStart, dInThisM)
      {
        var week: seq<Day>;
        if i == 1 {
          week, cmo, dayNbr := BuildFirstWeek(m, y, today, dayIdx, opts, util);
        } else {
          week, cmo, dayNbr := BuildLaterWeek(i, cmo, dayNbr, m, y, today, dayIdx, opts, util);
        }
        var weekNbr := if ShowWeekNumbers(opts) && FirstDayOfWeek(opts) == "mo" then util.getWeekNumber(week[0].dateObj) else 0;
        WeekFromCells(weeks, week, weekNbr, m, y, today, dayIdx, opts, util);
        weeks := weeks + [Week(week, weekNbr)];
      }
      GridFromWeeks(weeks, m, y, today, dayIdx, opts, util);
      dates := weeks;


      SetHeaderBtnDisabledState(m, y);
      cvc := CalendarViewChanged(y, m, DayOfMonth(1, Weekday(Date(y, m, 1))),
                                 DayOfMonth(dInThisM, Weekday(Date(y, m, dInThisM))));
    }
  }

  /** The first row of generateCalendar: the tail of the previous month up to the column of
      the first, then the first days of the month. */
  method BuildFirstWeek(m: int, y: int, today: Date, dayIdx: int, opts: Options, util: UtilService)
      returns (week: seq<Day>, cmo: MonthRelation, dayNbr: int)
    requires Complete(opts) && -1 <= dayIdx <= 6
    ensures |week| == 7 && Built(week, 0, m, y, today, dayIdx, opts, util)
    ensures RestState(7, cmo, dayNbr, MonthStartIdx(y, m, dayIdx), DaysInMonth(m, y))
  {
    var monthStart := MonthStartIdx(y, m, dayIdx);
    var dInPrevM := DaysInPrevMonth(m, y);
    week := [];
    cmo := MonthRelation.PrevMonth;
    dayNbr := 1;
    var pm := dInPrevM - monthStart + 1;
    for j := pm to dInPrevM + 1
      invariant |week| == j - pm
      invariant Built(week, 0, m, y, today, dayIdx, opts, util)
    {
      var cell := MakeDay(Date(y, m - 1, j), cmo, m, y, today, opts, util);
      PrevCellAt(j - pm, j, m, y, today, dayIdx, opts, util);
      BuiltPush(week, 0, cell, m, y, today, dayIdx, opts, util);
      week := week + [cell];
    }
    cmo := CurrMonth;
    var daysLeft := 7 - |week|;
    for j := 0 to daysLeft
      invariant |week| == monthStart + j && dayNbr == j + 1
      invariant Built(week, 0, m, y, today, dayIdx, opts, util)
    {
      var cell := MakeDay(Date(y, m, dayNbr), cmo, m, y, today, opts, util);
      CurrCellAt(monthStart + j, dayNbr, m, y, today, dayIdx, opts, util);
      BuiltPush(week, 0, cell, m, y, today, dayIdx, opts, util);
      week := week + [cell];
      dayNbr := dayNbr + 1;
    }
  }

  /** Row `i` (2..6) of generateCalendar: the days go on from `dayNbr`, switching to the next
      month once the month's last day is passed. */
  method BuildLaterWeek(i: int, cmo0: MonthRelation, dayNbr0: int, m: int, y: int, today: Date, dayIdx: int,
                        opts: Options, util: UtilService)
      returns (week: seq<Day>, cmo: MonthRelation, dayNbr: int)
    requires Complete(opts) && -1 <= dayIdx <= 6 && 1 < i <= 6
    requires RestState(7 * (i - 1), cmo0, dayNbr0, MonthStartIdx(y, m, dayIdx), DaysInMonth(m, y))
    ensures |week| == 7 && Built(week, 7 * (i - 1), m, y, today, dayIdx, opts, util)
    ensures RestState(7 * i, cmo, dayNbr, MonthStartIdx(y, m, dayIdx), DaysInMonth(m, y))
  {
    var monthStart := MonthStartIdx(y, m, dayIdx);
    var dInThisM := DaysInMonth(m, y);
    week, cmo, dayNbr := [], cmo0, dayNbr0;
    for j := 1 to 8
      invariant |week| == j - 1
      invariant Built(week, 7 * (i - 1), m, y, today, dayIdx, opts, util)
      invariant RestState(7 * (i - 1) + j - 1, cmo, dayNbr, monthStart, dInThisM)
    {
      LaterCellAt(7 * (i - 1) + j - 1, cmo, dayNbr, m, y, today, dayIdx, opts, util);
      if dayNbr > dInThisM {
        dayNbr := 1;
        cmo := MonthRelation.NextMonth;
      }
      var date := Date(y, if cmo == CurrMonth then m else m + 1, dayNbr);
      var cell := MakeDay(date, cmo, m, y, today, opts, util);
      BuiltPush(week, 7 * (i - 1), cell, m, y, today, dayIdx, opts, util);
      week := week + [cell];
      dayNbr := dayNbr + 1;
    }
  }

  /** The cells pushed so far are the grid cells from position `k0` on. */
  ghost predicate Built(week: seq<Day>, k0: int, m: int, y: int, today: Date, dayIdx: int, opts: Options, util: UtilService)
    requires Complete(opts) && -1 <= dayIdx <= 6
  {
    forall c :: 0 <= c < |week| ==> week[c] == CellAt(k0 + c, m, y, today, dayIdx, opts, util)
  }

  /** Where the rows after the first stand at flat position `k`: `cmo` and `dayNbr` are those
      of the cell at k, except that the switch to the next month happens at the cell itself
      (dayNbr is then one past the month's length). */
  ghost predicate RestState(k: int, cmo: MonthRelation, dayNbr: int, monthStart: int, dInThisM: int)
  {
    || (cmo == CurrMonth && dayNbr == k - monthStart + 1 && k <= monthStart + dInThisM)
    || (cmo == NextMonth && dayNbr == k - monthStart - dInThisM + 1 && k > monthStart + dInThisM)
  }

  lemma BuiltPush(week: seq<Day>, k0: int, cell: Day, m: int, y: int, today: Date, dayIdx: int, opts: Options, util: UtilService)
    requires Complete(opts) && -1 <= dayIdx <= 6
    requires Built(week, k0, m, y, today, dayIdx, opts, util)
    requires cell == CellAt(k0 + |week|, m, y, today, dayIdx, opts, util)
    ensures Built(week + [cell], k0, m, y, today, dayIdx, opts, util)
  {
  }

  /** The cells of the three runs, as the loops of generateCalendar push them: the cell at
      position `k` of the previous-month run is day `j` of month m - 1. */
  lemma PrevCellAt(k: int, j: int, m: int, y: int, today: Date, dayIdx: int, opts: Options, util: UtilService)
    requires Complete(opts) && -1 <= dayIdx <= 6
    requires 0 <= k < MonthStartIdx(y, m, dayIdx)
    requires j == DaysInPrevMonth(m, y) - MonthStartIdx(y, m, dayIdx) + 1 + k
    ensures CellAt(k, m, y, today, dayIdx, opts, util)
         == MakeDay(Date(y, m - 1, j), MonthRelation.PrevMonth, m, y, today, opts, util)
  {
  }

  /** The cell at position `k` of the month's own run is day `d` of month m. */
  lemma CurrCellAt(k: int, d: int, m: int, y: int, today: Date, dayIdx: int, opts: Options, util: UtilService)
    requires Complete(opts) && -1 <= dayIdx <= 6
    requires MonthStartIdx(y, m, dayIdx) <= k < MonthStartIdx(y, m, dayIdx) + DaysInMonth(m, y)
    requires d == k - MonthStartIdx(y, m, dayIdx) + 1
    ensures CellAt(k, m, y, today, dayIdx, opts, util) == MakeDay(Date(y, m, d), CurrMonth, m, y, today, opts, util)
  {
  }

  /** The cell at position `k` of the next-month run is day `d` of month m + 1. */
  lemma NextCellAt(k: int, d: int, m: int, y: int, today: Date, dayIdx: int, opts: Options, util: UtilService)
    requires Complete(opts) && -1 <= dayIdx <= 6
    requires MonthStartIdx(y, m, dayIdx) + DaysInMonth(m, y) <= k
    requires d == k - MonthStartIdx(y, m, dayIdx) - DaysInMonth(m, y) + 1
    ensures CellAt(k, m, y, today, dayIdx, opts, util)
         == MakeDay(Date(y, m + 1, d), MonthRelation.NextMonth, m, y, today, opts, util)
  {
  }

  /** One step of the later rows: from the state at position `k`, the switch to the next
      month (when the month is past) yields the cell at `k` and the state at `k + 1`. */
  lemma LaterCellAt(k: int, cmo: MonthRelation, dayNbr: int, m: int, y: int, today: Date, dayIdx: int,
                    opts: Options, util: UtilService)
    requires Complete(opts) && -1 <= dayIdx <= 6
    requires 7 <= k < 42 && RestState(k, cmo, dayNbr, MonthStartIdx(y, m, dayIdx), DaysInMonth(m, y))
    ensures var c := if dayNbr > DaysInMonth(m, y) then MonthRelation.NextMonth else cmo;
            var d := if dayNbr > DaysInMonth(m, y) then 1 else dayNbr;
            && CellAt(k, m, y, today, dayIdx, opts, util)
               == MakeDay(Date(y, if c == CurrMonth then m else m + 1, d), c, m, y, today, opts, util)
            && RestState(k + 1, c, d + 1, MonthStartIdx(y, m, dayIdx), DaysInMonth(m, y))
  {
    if dayNbr > DaysInMonth(m, y) || cmo == NextMonth {
      NextCellAt(k, if dayNbr > DaysInMonth(m, y) then 1 else dayNbr, m, y, today, dayIdx, opts, util);
    } else {
      CurrCellAt(k, dayNbr, m, y, today, dayIdx, opts, util);
    }
  }

  /** The weeks pushed so far are the first rows of the grid. */
  ghost predicate WeeksBuilt(weeks: seq<Week>, m: int, y: int, today: Date, dayIdx: int, opts: Options, util: UtilService)
    requires Complete(opts) && -1 <= dayIdx <= 6
  {
    forall w :: 0 <= w < |weeks| ==> weeks[w] == WeekAt(w, m, y, today, dayIdx, opts, util)
  }

  lemma WeekFromCells(weeks: seq<Week>, week: seq<Day>, weekNbr: int, m: int, y: int, today: Date, dayIdx: int, opts: Options, util: UtilService)
    requires Complete(opts) && -1 <= dayIdx <= 6
    requires WeeksBuilt(weeks, m, y, today, dayIdx, opts, util)
    requires |week| == 7 && Built(week, 7 * |weeks|, m, y, today, dayIdx, opts, util)
    requires weekNbr == if ShowWeekNumbers(opts) && FirstDayOfWeek(opts) == "mo" then util.getWeekNumber(week[0].dateObj) else 0
    ensures WeeksBuilt(weeks + [Week(week, weekNbr)], m, y, today, dayIdx, opts, util)
  {
    RowIsWeekAt(|weeks|, week, weekNbr, m, y, today, dayIdx, opts, util);
  }

  /** Seven cells pushed from position 7 * w on, with the week number of the first, are row
      `w` of the grid. */
  lemma RowIsWeekAt(w: int, week: seq<Day>, weekNbr: int, m: int, y: int, today: Date, dayIdx: int, opts: Options, util: UtilService)
    requires Complete(opts) && -1 <= dayIdx <= 6
    requires |week| == 7 && Built(week, 7 * w, m, y, today, dayIdx, opts, util)
    requires weekNbr == if ShowWeekNumbers(opts) && FirstDayOfWeek(opts) == "mo" then util.getWeekNumber(week[0].dateObj) else 0
    ensures Week(week, weekNbr) == WeekAt(w, m, y, today, dayIdx, opts, util)
  {
    var cells := RowCells(w, m, y, today, dayIdx, opts, util);
    assert week == cells by {
      forall c | 0 <= c < 7
        ensures week[c] == cells[c]
      {
      }
    }
    assert weekNbr == WeekNumber(week, opts, util);
  }

  lemma GridFromWeeks(dates: seq<Week>, m: int, y: int, today: Date, dayIdx: int, opts: Options, util: UtilService)
    requires Complete(opts) && -1 <= dayIdx <= 6
    requires |dates| == 6 && WeeksBuilt(dates, m, y, today, dayIdx, opts, util)
    ensures dates == CalendarGrid(m, y, today, dayIdx, opts, util)
  {
  }
}
