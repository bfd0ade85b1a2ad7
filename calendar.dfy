/** The date arithmetic behind the calendar component: month lengths, the host Date's month
    carry, weekdays on the proleptic Gregorian calendar and the rotation of the week so that
    the configured first day of the week sits in column 0. */
module Calendar {
  import opened Types

  /** The weekday keys in host order: index 0 is Sunday (`weekDayOpts`). */
  const WeekDayOpts: seq<string> := ["su", "mo", "tu", "we", "th", "fr", "sa"]

  /** "sa" is the last of the seven keys and occurs nowhere else. */
  lemma SaturdayLast(i: int)
    requires 0 <= i < 7
    ensures WeekDayOpts[i] == "sa" <==> i == 6
  {
    if i < 6 {
      assert WeekDayOpts[i][1] != 'a';
    }
  }

  /** Stepping a weekday index on by one wraps Saturday (6) to Sunday (0). */
  lemma WeekdayStep(a: int)
    ensures (a + 1) % 7 == if a % 7 == 6 then 0 else a % 7 + 1
  {
  }

  predicate IsLeapYear(y: int)
  {
    y % 4 == 0 && (y % 100 != 0 || y % 400 == 0)
  }

  /** Length of month `m` (1..12) of year `y`. */
  function MonthLength(m: int, y: int): (n: int)
    requires 1 <= m <= 12
    ensures 28 <= n <= 31
    ensures m == 2 ==> (n == 29 <==> IsLeapYear(y))
  {
    if m == 2 then (if IsLeapYear(y) then 29 else 28)
    else if m == 4 || m == 6 || m == 9 || m == 11 then 30
    else 31
  }

  /** The month carry of the host Date: month `m` of year `y`, for any integer `m`, is month
      `ym.1` (1..12) of year `ym.0`; month 0 is December of the year before, month 13 January
      of the year after. */
  function NormalizeMonth(y: int, m: int): (ym: (int, int))
    ensures 1 <= ym.1 <= 12
    ensures ym.0 * 12 + ym.1 == y * 12 + m
    decreases if m < 1 then 1 - m else if m > 12 then m - 12 else 0
  {
    if m < 1 then NormalizeMonth(y - 1, m + 12)
    else if m > 12 then NormalizeMonth(y + 1, m - 12)
    else (y, m)
  }

  /** Two (year, month 1..12) pairs that denote the same month are equal. */
  lemma MonthPairUnique(a: (int, int), b: (int, int))
    requires 1 <= a.1 <= 12 && 1 <= b.1 <= 12
    requires a.0 * 12 + a.1 == b.0 * 12 + b.1
    ensures a == b
  {
  }

  /** Months 1..12 are already normal; stepping back from January reaches December of the
      year before, stepping on from December reaches January of the year after. */
  lemma NormalizeMonthSteps(y: int, m: int)
    requires 1 <= m <= 12
    ensures NormalizeMonth(y, m) == (y, m)
    ensures NormalizeMonth(y, m - 1) == if m == 1 then (y - 1, 12) else (y, m - 1)
    ensures NormalizeMonth(y, m + 1) == if m == 12 then (y + 1, 1) else (y, m + 1)
  {
    MonthPairUnique(NormalizeMonth(y, m), (y, m));
    MonthPairUnique(NormalizeMonth(y, m - 1), if m == 1 then (y - 1, 12) else (y, m - 1));
    MonthPairUnique(NormalizeMonth(y, m + 1), if m == 12 then (y + 1, 1) else (y, m + 1));
  }

  /** `daysInMonth(m, y)`: the day number of `new Date(y, m, 0)`, the last day of month
      `m` (1-based) of year `y` after the month carry. */
  function DaysInMonth(m: int, y: int): (n: int)
    ensures 28 <= n <= 31
    ensures 1 <= m <= 12 ==> n == MonthLength(m, y)
  {
    var ym := NormalizeMonth(y, m);
    NormalizeMonthSteps(y, if 1 <= m <= 12 then m else 1);
    MonthLength(ym.1, ym.0)
  }

  /** `daysInPrevMonth(m, y)`: the first of month `m` is built, moved back one month by the
      host Date, and the length of the month reached is taken. It is the length of month
      `m - 1` after the carry. */
  function DaysInPrevMonth(m: int, y: int): (n: int)
    ensures n == DaysInMonth(m - 1, y)
  {
    var first := NormalizeMonth(y, m);
    var prev := NormalizeMonth(first.0, first.1 - 1);
    MonthPairUnique(prev, NormalizeMonth(y, m - 1));
    DaysInMonth(prev.1, prev.0)
  }

  /** Days in the years before year `y` (years 1 .. y - 1 when y >= 1), by the Gregorian leap rule. */
  function DaysBeforeYear(y: int): int
  {
    365 * (y - 1) + (y - 1) / 4 - (y - 1) / 100 + (y - 1) / 400
  }

  /** Days in the months of year `y` before month `m` (1..12). */
  function DaysBeforeMonth(m: int, y: int): int
    requires 1 <= m <= 12
  {
    var before := [0, 31, 59, 90, 120, 151, 181, 212, 243, 273, 304, 334][m - 1];
    if m > 2 && IsLeapYear(y) then before + 1 else before
  }

  /** A serial number of the day: the host Date's own time value counted in days, up to a
      constant. Month and day are carried the way the host Date carries them: any month
      through NormalizeMonth, any day by counting on from the first. 1 January of year 1,
      a Monday, has serial 1. */
  function DaySerial(y: int, m: int, d: int): int
  {
    var ym := NormalizeMonth(y, m);
    DaysBeforeYear(ym.0) + DaysBeforeMonth(ym.1, ym.0) + d
  }

  /** `getDayNumber`: the weekday of `getDate(y, m, d)`, 0 = Sunday .. 6 = Saturday. */
  function DayOfWeek(y: int, m: int, d: int): (r: int)
    ensures 0 <= r < 7
  {
    DaySerial(y, m, d) % 7
  }

  function DayNumber(date: Date): (r: int)
    ensures 0 <= r < 7
  {
    DayOfWeek(date.year, date.month, date.day)
  }

  /** `getWeekday`: the weekday key of a date. */
  function Weekday(date: Date): (r: string)
    ensures r in WeekDayOpts
  {
    WeekDayOpts[DayNumber(date)]
  }

  /** `indexOf` reads the weekday key of a date back as the date's weekday number. */
  lemma WeekdayIndex(date: Date)
    ensures IndexOf(WeekDayOpts, Weekday(date)) == DayNumber(date)
  {
    KeyIndex(DayNumber(date));
  }

  /** The seven weekday keys are distinct, so `indexOf` finds each at its own position. */
  lemma KeyIndex(i: int)
    requires 0 <= i < 7
    ensures IndexOf(WeekDayOpts, WeekDayOpts[i]) == i
  {
    IndexOfFirst(WeekDayOpts, WeekDayOpts[i]);
  }

  lemma FloorQuarterStep(a: int)
    ensures (a + 1) / 4 - a / 4 == if (a + 1) % 4 == 0 then 1 else 0
    ensures (a + 1) / 100 - a / 100 == if (a + 1) % 100 == 0 then 1 else 0
    ensures (a + 1) / 400 - a / 400 == if (a + 1) % 400 == 0 then 1 else 0
  {
  }

  /** Every multiple of 400 is a multiple of 100, and every multiple of 100 one of 4. */
  lemma DivisorChain(y: int)
    ensures y % 100 == 0 ==> y % 4 == 0
    ensures y % 400 == 0 ==> y % 100 == 0
  {
    if y % 100 == 0 {
      var k := y / 100;
      assert y == 4 * (25 * k);
    }
    if y % 400 == 0 {
      var k := y / 400;
      assert y == 100 * (4 * k);
    }
  }

  /** A year has 366 days when it is a leap year and 365 otherwise. */
  lemma YearLength(y: int)
    ensures DaysBeforeYear(y + 1) - DaysBeforeYear(y) == if IsLeapYear(y) then 366 else 365
  {
    FloorQuarterStep(y - 1);
    DivisorChain(y);
  }

  /** The first of the next month comes exactly DaysInMonth days after the first of this
      month, for every month number the host Date accepts: the month lengths and the weekday
      count agree. */
  lemma NextMonthStart(y: int, m: int)
    ensures DaySerial(y, m + 1, 1) == DaySerial(y, m, 1) + DaysInMonth(m, y)
  {
    var ym := NormalizeMonth(y, m);
    var next := NormalizeMonth(y, m + 1);
    if ym.1 < 12 {
      MonthPairUnique(next, (ym.0, ym.1 + 1));
    } else {
      MonthPairUnique(next, (ym.0 + 1, 1));
      YearLength(ym.0);
    }
  }

  /** `sundayIdx`: the column of Sunday when the week starts at weekday `dayIdx`
      (-1 when the configured first day was not found, which leaves Sunday first).
      Column `c` then shows weekday (first + c) mod 7. */
  function SundayIdx(dayIdx: int): (r: int)
    requires -1 <= dayIdx <= 6
    ensures 0 <= r < 7
    ensures (Max(dayIdx, 0) + r) % 7 == 0
  {
    if dayIdx > 0 then 7 - dayIdx else 0
  }

  /** `monthStartIdx(y, m)`: the column of the first of the month. The host Date is set to
      day 1, then month m - 1 (carried), then year y, so the month is carried but the year is
      not. */
  function MonthStartIdx(y: int, m: int, dayIdx: int): (r: int)
    requires -1 <= dayIdx <= 6
    ensures 0 <= r < 7
  {
    var idx := DayOfWeek(y, NormalizeMonth(y, m).1, 1) + SundayIdx(dayIdx);
    if idx >= 7 then idx - 7 else idx
  }

  /** The column of the first is (weekday of the first + sundayIdx) mod 7, and the weekday
      that column's heading names, (first day of the week + column) mod 7, is the weekday of
      the first. */
  lemma MonthStartWeekday(y: int, m: int, dayIdx: int)
    requires -1 <= dayIdx <= 6
    ensures MonthStartIdx(y, m, dayIdx) == (DayOfWeek(y, NormalizeMonth(y, m).1, 1) + SundayIdx(dayIdx)) % 7
    ensures (Max(dayIdx, 0) + MonthStartIdx(y, m, dayIdx)) % 7 == DayOfWeek(y, NormalizeMonth(y, m).1, 1)
  {
    ColumnOf(DayOfWeek(y, NormalizeMonth(y, m).1, 1), SundayIdx(dayIdx), Max(dayIdx, 0));
  }

  /** Weekday `a` shifted by `s`, the column of Sunday when the week starts at weekday `first`,
      and wrapped once is (a + s) mod 7, and lies in the column whose heading is weekday `a`. */
  lemma ColumnOf(a: int, s: int, first: int)
    requires 0 <= a < 7 && 0 <= s < 7 && (first + s) % 7 == 0
    ensures (if a + s >= 7 then a + s - 7 else a + s) == (a + s) % 7
    ensures (first + (a + s) % 7) % 7 == a
  {
  }

  /** For a month 1..12, the first of the month falls `monthStart` columns after the first
      day of the week. */
  lemma MonthStartSerial(y: int, m: int, dayIdx: int)
    requires -1 <= dayIdx <= 6 && 1 <= m <= 12
    ensures (Max(dayIdx, 0) + MonthStartIdx(y, m, dayIdx)) % 7 == DaySerial(y, m, 1) % 7
  {
    NormalizeMonthSteps(y, m);
    MonthStartWeekday(y, m, dayIdx);
  }

  /** `indexOf`: the first position of `x` in `s`, or -1 when it does not occur. */
  function IndexOf(s: seq<string>, x: string): (r: int)
    ensures -1 <= r < |s|
  {
    if s == [] then -1
    else if s[0] == x then 0
    else
      var i := IndexOf(s[1..], x);
      if i == -1 then -1 else i + 1
  }

  /** IndexOf finds `x` exactly when it occurs, and then at its first occurrence. */
  lemma {:induction false} IndexOfFirst(s: seq<string>, x: string)
    ensures IndexOf(s, x) == -1 <==> x !in s
    ensures IndexOf(s, x) >= 0 ==> s[IndexOf(s, x)] == x && x !in s[..IndexOf(s, x)]
  {
    if s != [] && s[0] != x {
      IndexOfFirst(s[1..], x);
      assert s == [s[0]] + s[1..];
      if IndexOf(s, x) >= 0 {
        assert s[..IndexOf(s, x)] == [s[0]] + s[1..][..IndexOf(s[1..], x)];
      }
    }
  }

  /** Anchors the day count: every weekday follows from NextMonthStart and SerialOffset, and
      these two dates fix where the count starts, 1 January 2023 on a Sunday and 1 February
      2024 on a Thursday. */
  lemma KnownWeekdays()
    ensures DayOfWeek(2023, 1, 1) == 0
    ensures DayOfWeek(2024, 2, 1) == 4
  {
    assert NormalizeMonth(2023, 1) == (2023, 1) && NormalizeMonth(2024, 2) == (2024, 2);
    assert DaysBeforeYear(2023) == 738520;
    assert DaysBeforeYear(2024) == 738885;
  }
}
