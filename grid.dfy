/** What `generateCalendar` builds, defined cell by cell: the 6 x 7 grid for month `m` of
    year `y`, and the properties of that grid. The component's method is proved to build
    exactly CalendarGrid. */
module Grid {
  import opened Types
  import opened Calendar
  import opened Options
  import opened Util

  /** `isCurrDay(d, m, y, cmo, today)`: day `d` of the month being rendered is today. */
  predicate IsCurrDay(d: int, m: int, y: int, cmo: MonthRelation, today: Date): (r: bool)
    ensures r <==> cmo == CurrMonth && Date(y, m, d) == today
  {
    d == today.day && m == today.month && y == today.year && cmo == CurrMonth
  }

  /** The cell pushed for `date` while month `m` of year `y` is rendered: its weekday comes
      from the carried date and `disabled` from the day validator. */
  function MakeDay(date: Date, cmo: MonthRelation, m: int, y: int, today: Date,
                   opts: Options, util: UtilService): (r: Day)
    requires Complete(opts)
    ensures r.dateObj == date && r.cmo == cmo && 0 <= r.dayNbr < 7
    ensures r.currDay <==> cmo == CurrMonth && Date(y, m, date.day) == today
  {
    Day(date, cmo, IsCurrDay(date.day, m, y, cmo, today), DayNumber(date),
        util.isDisabledDay(date, Rules(opts)))
  }

  /** The date of the cell at row-major position `k` (0..41) when the first of the month sits
      in column `ms`. The first `ms` positions hold the last days of the previous month, the
      next ones days 1.. of the month itself, the rest days 1.. of the next month. Month fields
      are stored as written (m - 1 and m + 1, year y). */
  function CellDate(k: int, m: int, y: int, ms: int): (r: Date)
    ensures r.year == y
    ensures r.month == m - 1 <==> k < ms
    ensures r.month == m <==> ms <= k < ms + DaysInMonth(m, y)
    ensures r.month == m + 1 <==> ms + DaysInMonth(m, y) <= k
    ensures 0 <= ms < 7 && 0 <= k < 42 ==> 1 <= r.day <= DaysInMonth(r.month, r.year)
  {
    var dInThisM := DaysInMonth(m, y);
    if k < ms then Date(y, m - 1, DaysInPrevMonth(m, y) - ms + 1 + k)
    else if k < ms + dInThisM then Date(y, m, k - ms + 1)
    else Date(y, m + 1, k - ms - dInThisM + 1)
  }

  /** Which month the cell at position `k` belongs to when the month starts in column `ms`. */
  function CellRelation(k: int, m: int, y: int, ms: int): MonthRelation
  {
    if k < ms then PrevMonth
    else if k < ms + DaysInMonth(m, y) then CurrMonth
    else NextMonth
  }

  /** The cell at row-major position `k` (0..41) of the grid of month `m` of year `y`. */
  function CellAt(k: int, m: int, y: int, today: Date, dayIdx: int, opts: Options, util: UtilService): (r: Day)
    requires Complete(opts) && -1 <= dayIdx <= 6
    ensures r.cmo == CurrMonth <==> r.dateObj.month == m
    ensures r.currDay ==> r.dateObj == today
    ensures 0 <= k < 42 ==> 1 <= r.dateObj.day <= DaysInMonth(r.dateObj.month, r.dateObj.year)
  {
    var ms := MonthStartIdx(y, m, dayIdx);
    MakeDay(CellDate(k, m, y, ms), CellRelation(k, m, y, ms), m, y, today, opts, util)
  }

  /** What every cell records besides its date: the validator's verdict, the today mark of the
      month itself, the weekday of the carried date. */
  lemma CellAtFields(k: int, m: int, y: int, today: Date, dayIdx: int, opts: Options, util: UtilService)
    requires Complete(opts) && -1 <= dayIdx <= 6
    ensures var cell := CellAt(k, m, y, today, dayIdx, opts, util);
            && cell.disabled == util.isDisabledDay(cell.dateObj, Rules(opts))
            && (cell.currDay <==> cell.cmo == CurrMonth && cell.dateObj == today)
            && cell.dayNbr == DayNumber(cell.dateObj)
  {
  }

  /** The week number of a row: only shown when week numbers are on and weeks start on Monday. */
  function WeekNumber(week: seq<Day>, opts: Options, util: UtilService): int
    requires Complete(opts) && |week| > 0
  {
    if ShowWeekNumbers(opts) && FirstDayOfWeek(opts) == "mo" then util.getWeekNumber(week[0].dateObj) else 0
  }

  /** The seven cells of row `w`. */
  function RowCells(w: int, m: int, y: int, today: Date, dayIdx: int, opts: Options, util: UtilService): (r: seq<Day>)
    requires Complete(opts) && -1 <= dayIdx <= 6
    ensures |r| == 7
  {
    seq(7, c => CellAt(7 * w + c, m, y, today, dayIdx, opts, util))
  }

  /** Row `w` of the grid with its week number. */
  function WeekAt(w: int, m: int, y: int, today: Date, dayIdx: int, opts: Options, util: UtilService): (r: Week)
    requires Complete(opts) && -1 <= dayIdx <= 6
    ensures |r.week| == 7
  {
    var cells := RowCells(w, m, y, today, dayIdx, opts, util);
    Week(cells, WeekNumber(cells, opts, util))
  }

  function CalendarGrid(m: int, y: int, today: Date, dayIdx: int, opts: Options, util: UtilService): (g: seq<Week>)
    requires Complete(opts) && -1 <= dayIdx <= 6
    ensures |g| == 6
    ensures forall w :: 0 <= w < 6 ==> |g[w].week| == 7
  {
    seq(6, w => WeekAt(w, m, y, today, dayIdx, opts, util))
  }

  /** Column c of row w is the cell at position 7 * w + c. */
  lemma GridAt(w: int, c: int, m: int, y: int, today: Date, dayIdx: int, opts: Options, util: UtilService)
    requires Complete(opts) && -1 <= dayIdx <= 6
    requires 0 <= w < 6 && 0 <= c < 7
    ensures CalendarGrid(m, y, today, dayIdx, opts, util)[w].week[c] == CellAt(7 * w + c, m, y, today, dayIdx, opts, util)
  {
    assert CalendarGrid(m, y, today, dayIdx, opts, util)[w] == WeekAt(w, m, y, today, dayIdx, opts, util);
    assert RowCells(w, m, y, today, dayIdx, opts, util)[c] == CellAt(7 * w + c, m, y, today, dayIdx, opts, util);
  }

  /** The cells of a grid, row after row. */
  function Cells(g: seq<Week>): seq<Day>
  {
    if g == [] then [] else g[0].week + Cells(g[1..])
  }

  /** In a grid of full weeks, position k of the flattened cells is column k % 7 of row k / 7. */
  lemma {:induction false} CellsIndex(g: seq<Week>, k: int)
    requires forall w :: 0 <= w < |g| ==> |g[w].week| == 7
    requires 0 <= k < 7 * |g|
    ensures |Cells(g)| == 7 * |g|
    ensures Cells(g)[k] == g[k / 7].week[k % 7]
  {
    if k < 7 {
      CellsLength(g[1..]);
    } else {
      CellsIndex(g[1..], k - 7);
    }
  }

  lemma {:induction false} CellsLength(g: seq<Week>)
    requires forall w :: 0 <= w < |g| ==> |g[w].week| == 7
    ensures |Cells(g)| == 7 * |g|
  {
    if g != [] {
      CellsLength(g[1..]);
    }
  }

  /** The flattened grid is exactly the cells of CellAt, position by position. */
  lemma GridCells(m: int, y: int, today: Date, dayIdx: int, opts: Options, util: UtilService)
    requires Complete(opts) && -1 <= dayIdx <= 6
    ensures |Cells(CalendarGrid(m, y, today, dayIdx, opts, util))| == 42
    ensures forall k :: 0 <= k < 42 ==>
      Cells(CalendarGrid(m, y, today, dayIdx, opts, util))[k] == CellAt(k, m, y, today, dayIdx, opts, util)
  {
    var g := CalendarGrid(m, y, today, dayIdx, opts, util);
    CellsLength(g);
    forall k | 0 <= k < 42
      ensures Cells(g)[k] == CellAt(k, m, y, today, dayIdx, opts, util)
    {
      CellsIndex(g, k);
      assert 7 * (k / 7) + k % 7 == k;
    }
  }

  /** The three runs of the grid: `monthStart` trailing days of the previous month, every day
      of the month once and in order, then the next month from day 1 to the end of the grid. */
  lemma GridRuns(m: int, y: int, today: Date, dayIdx: int, opts: Options, util: UtilService)
    requires Complete(opts) && -1 <= dayIdx <= 6
    ensures var cells := Cells(CalendarGrid(m, y, today, dayIdx, opts, util));
            var ms, n, p := MonthStartIdx(y, m, dayIdx), DaysInMonth(m, y), DaysInPrevMonth(m, y);
            && |cells| == 42
            && ms + n < 42
            && (forall k :: 0 <= k < ms ==>
                  cells[k].cmo == PrevMonth && cells[k].dateObj == Date(y, m - 1, p - ms + 1 + k))
            && (forall k :: ms <= k < ms + n ==>
                  cells[k].cmo == CurrMonth && cells[k].dateObj == Date(y, m, k - ms + 1))
            && (forall k :: ms + n <= k < 42 ==>
                  cells[k].cmo == NextMonth && cells[k].dateObj == Date(y, m + 1, k - ms - n + 1))
            && (forall k :: 0 <= k < 42 && cells[k].cmo == CurrMonth ==> ms <= k < ms + n)
  {
    GridCells(m, y, today, dayIdx, opts, util);
  }

  /** The first row: `monthStart` cells of the previous month, then cells of the month itself. */
  lemma FirstWeek(m: int, y: int, today: Date, dayIdx: int, opts: Options, util: UtilService)
    requires Complete(opts) && -1 <= dayIdx <= 6
    ensures var row := CalendarGrid(m, y, today, dayIdx, opts, util)[0].week;
            var ms := MonthStartIdx(y, m, dayIdx);
            forall c :: 0 <= c < 7 ==>
              (row[c].cmo == PrevMonth <==> c < ms) && (c >= ms ==> row[c].cmo == CurrMonth)
  {
    var row := CalendarGrid(m, y, today, dayIdx, opts, util)[0].week;
    var ms, n := MonthStartIdx(y, m, dayIdx), DaysInMonth(m, y);
    forall c | 0 <= c < 7
      ensures (row[c].cmo == PrevMonth <==> c < ms) && (c >= ms ==> row[c].cmo == CurrMonth)
    {
      assert row[c] == CellAt(c, m, y, today, dayIdx, opts, util);
      assert c < ms + n;
    }
  }

  /** Every cell's `disabled` is the day validator's verdict on its date, `currDay` holds
      exactly for the cell of the month itself whose date is today, and `dayNbr` is the
      weekday of the cell's date. */
  lemma GridFlags(m: int, y: int, today: Date, dayIdx: int, opts: Options, util: UtilService)
    requires Complete(opts) && -1 <= dayIdx <= 6
    ensures var g := CalendarGrid(m, y, today, dayIdx, opts, util);
            forall w, c :: 0 <= w < 6 && 0 <= c < 7 ==>
              && g[w].week[c].disabled == util.isDisabledDay(g[w].week[c].dateObj, Rules(opts))
              && (g[w].week[c].currDay <==> g[w].week[c].cmo == CurrMonth && g[w].week[c].dateObj == today)
              && g[w].week[c].dayNbr == DayNumber(g[w].week[c].dateObj)
  {
    var g := CalendarGrid(m, y, today, dayIdx, opts, util);
    forall w, c | 0 <= w < 6 && 0 <= c < 7
      ensures g[w].week[c].disabled == util.isDisabledDay(g[w].week[c].dateObj, Rules(opts))
      ensures g[w].week[c].currDay <==> g[w].week[c].cmo == CurrMonth && g[w].week[c].dateObj == today
      ensures g[w].week[c].dayNbr == DayNumber(g[w].week[c].dateObj)
    {
      GridAt(w, c, m, y, today, dayIdx, opts, util);
      CellAtFields(7 * w + c, m, y, today, dayIdx, opts, util);
    }
  }

  /** Week numbers are 0 unless they are shown and weeks start on Monday; then each row gets
      the week number of its first cell. */
  lemma GridWeekNumbers(m: int, y: int, today: Date, dayIdx: int, opts: Options, util: UtilService)
    requires Complete(opts) && -1 <= dayIdx <= 6
    ensures var g := CalendarGrid(m, y, today, dayIdx, opts, util);
            forall w :: 0 <= w < 6 ==>
              g[w].weekNbr == if ShowWeekNumbers(opts) && FirstDayOfWeek(opts) == "mo"
                              then util.getWeekNumber(g[w].week[0].dateObj) else 0
  {
  }

  lemma ModShift(a: int, b: int, c: int)
    requires a % 7 == b % 7
    ensures (a + c) % 7 == (b + c) % 7
  {
  }

  /** Day d of a month is d - 1 days after its first day, whatever the day number. */
  lemma SerialOffset(y: int, m: int, d: int)
    ensures DaySerial(y, m, d) == DaySerial(y, m, 1) + d - 1
  {
  }

  /** Day d of a month falls d - 1 weekdays after its first day. */
  lemma DayNumberOffset(y: int, m: int, d: int)
    ensures DayNumber(Date(y, m, d)) == (DayNumber(Date(y, m, 1)) + d - 1) % 7
  {
    var a := DaySerial(y, m, 1);
    SerialOffset(y, m, d);
    ModShift(a % 7, a, d - 1);
  }

  /** Day j of the previous month, counted back from the first of month m. */
  lemma PrevMonthSerial(y: int, m: int, j: int)
    ensures DaySerial(y, m - 1, j) == DaySerial(y, m, 1) - DaysInPrevMonth(m, y) + j - 1
  {
    SerialOffset(y, m - 1, j);
    NextMonthStart(y, m - 1);
  }

  /** Day j of the next month, counted on from the first of month m. */
  lemma NextMonthSerial(y: int, m: int, j: int)
    ensures DaySerial(y, m + 1, j) == DaySerial(y, m, 1) + DaysInMonth(m, y) + j - 1
  {
    SerialOffset(y, m + 1, j);
    NextMonthStart(y, m);
  }

  /** The date of the cell at position k is k - monthStart days after the first of the month,
      across both month boundaries, and so falls on that day's weekday. */
  lemma CellSerial(k: int, m: int, y: int, ms: int)
    ensures var d := CellDate(k, m, y, ms);
            && DaySerial(d.year, d.month, d.day) == DaySerial(y, m, 1) - ms + k
            && DayNumber(d) == (DaySerial(y, m, 1) - ms + k) % 7
  {
    if k < ms {
      PrevCellSerial(k, m, y, ms);
    } else if k < ms + DaysInMonth(m, y) {
      CurrCellSerial(k, m, y, ms);
    } else {
      NextCellSerial(k, m, y, ms);
    }
  }

  lemma PrevCellSerial(k: int, m: int, y: int, ms: int)
    requires k < ms
    ensures var d := CellDate(k, m, y, ms);
            && DaySerial(d.year, d.month, d.day) == DaySerial(y, m, 1) - ms + k
            && DayNumber(d) == (DaySerial(y, m, 1) - ms + k) % 7
  {
    var j := DaysInPrevMonth(m, y) - ms + 1 + k;
    assert CellDate(k, m, y, ms) == Date(y, m - 1, j);
    PrevMonthSerial(y, m, j);
  }

  lemma CurrCellSerial(k: int, m: int, y: int, ms: int)
    requires ms <= k < ms + DaysInMonth(m, y)
    ensures var d := CellDate(k, m, y, ms);
            && DaySerial(d.year, d.month, d.day) == DaySerial(y, m, 1) - ms + k
            && DayNumber(d) == (DaySerial(y, m, 1) - ms + k) % 7
  {
    var j := k - ms + 1;
    assert CellDate(k, m, y, ms) == Date(y, m, j);
    SerialOffset(y, m, j);
  }

  lemma NextCellSerial(k: int, m: int, y: int, ms: int)
    requires ms + DaysInMonth(m, y) <= k
    ensures var d := CellDate(k, m, y, ms);
            && DaySerial(d.year, d.month, d.day) == DaySerial(y, m, 1) - ms + k
            && DayNumber(d) == (DaySerial(y, m, 1) - ms + k) % 7
  {
    var j := k - ms - DaysInMonth(m, y) + 1;
    assert CellDate(k, m, y, ms) == Date(y, m + 1, j);
    NextMonthSerial(y, m, j);
  }

  /** Counting k = 7 * w + c days on from a day on weekday `first + ms`, less `ms`, lands on
      weekday `first + c`. */
  lemma WeekdayShift(s0: int, ms: int, first: int, w: int, c: int)
    requires (first + ms) % 7 == s0 % 7
    ensures (s0 - ms + (7 * w + c)) % 7 == (first + c) % 7
  {
    ModShift(s0, first + ms, 7 * w + c - ms);
    assert (first + ms + (7 * w + c - ms)) % 7 == (first + c) % 7 by {
      assert first + ms + (7 * w + c - ms) == (first + c) + 7 * w;
    }
  }

  /** When the first of the month falls on weekday `first + ms` (mod 7), the cell in column c
      of row w falls on weekday `first + c` (mod 7). */
  lemma CellDateWeekday(w: int, c: int, m: int, y: int, ms: int, first: int)
    requires (first + ms) % 7 == DaySerial(y, m, 1) % 7
    ensures DayNumber(CellDate(7 * w + c, m, y, ms)) == (first + c) % 7
  {
    CellSerial(7 * w + c, m, y, ms);
    WeekdayShift(DaySerial(y, m, 1), ms, first, w, c);
  }

  /** For a month 1..12, the weekday of the cell in column c of row w is (first day of the
      week + c) mod 7. */
  lemma CellWeekday(w: int, c: int, m: int, y: int, today: Date, dayIdx: int, opts: Options, util: UtilService)
    requires Complete(opts) && -1 <= dayIdx <= 6
    requires 1 <= m <= 12
    ensures CellAt(7 * w + c, m, y, today, dayIdx, opts, util).dayNbr == (Max(dayIdx, 0) + c) % 7
  {
    var ms, first := MonthStartIdx(y, m, dayIdx), Max(dayIdx, 0);
    MonthStartSerial(y, m, dayIdx);
    CellDateWeekday(w, c, m, y, ms, first);
  }

  /** For a month 1..12, the cell in column c has weekday (first day of the week + c) mod 7:
      the weekday of every cell matches the heading of its column. */
  lemma GridColumnWeekdays(m: int, y: int, today: Date, dayIdx: int, opts: Options, util: UtilService)
    requires Complete(opts) && -1 <= dayIdx <= 6
    requires 1 <= m <= 12
    ensures var g := CalendarGrid(m, y, today, dayIdx, opts, util);
            forall w, c :: 0 <= w < 6 && 0 <= c < 7 ==> g[w].week[c].dayNbr == (Max(dayIdx, 0) + c) % 7
  {
    forall w, c | 0 <= w < 6 && 0 <= c < 7
      ensures CalendarGrid(m, y, today, dayIdx, opts, util)[w].week[c].dayNbr == (Max(dayIdx, 0) + c) % 7
    {
      GridAt(w, c, m, y, today, dayIdx, opts, util);
      CellWeekday(w, c, m, y, today, dayIdx, opts, util);
    }
  }

  /** `currDay` marks at most one cell: the cell of today when today falls in the month shown,
      and no cell otherwise. */
  lemma TodayMarkedOnce(m: int, y: int, today: Date, dayIdx: int, opts: Options, util: UtilService)
    requires Complete(opts) && -1 <= dayIdx <= 6
    ensures var cells := Cells(CalendarGrid(m, y, today, dayIdx, opts, util));
            var ms, n := MonthStartIdx(y, m, dayIdx), DaysInMonth(m, y);
            && |cells| == 42
            && (forall k :: 0 <= k < 42 ==>
                  (cells[k].currDay <==> ms <= k < ms + n && today == Date(y, m, k - ms + 1)))
            && (today.year == y && today.month == m && 1 <= today.day <= n ==>
                  cells[ms + today.day - 1].currDay)
  {
    GridCells(m, y, today, dayIdx, opts, util);
    var cells := Cells(CalendarGrid(m, y, today, dayIdx, opts, util));
    forall k | 0 <= k < 42
      ensures cells[k].currDay <==> MonthStartIdx(y, m, dayIdx) <= k < MonthStartIdx(y, m, dayIdx) + DaysInMonth(m, y)
                                    && today == Date(y, m, k - MonthStartIdx(y, m, dayIdx) + 1)
    {
      CellAtFields(k, m, y, today, dayIdx, opts, util);
    }
  }
}
