/** The proleptic Gregorian calendar as JavaScript's Date sees it in local time:
    months numbered 0 (January) to 11 (December), weekdays 0 (Sunday) to 6 (Saturday),
    and day-of-month overflow carried into neighbouring months as Date.setDate does. */
module Calendar {

  datatype Date = Date(year: int, month: int, day: int)

  /** getDay() of a Friday. */
  const Friday: int := 5

  predicate IsLeapYear(y: int) {
    y % 4 == 0 && (y % 100 != 0 || y % 400 == 0)
  }

  function DaysInMonth(y: int, m: int): (n: int)
    requires 0 <= m < 12
    ensures 28 <= n <= 31
    ensures n == 29 <==> m == 1 && IsLeapYear(y)
  {
    if m == 1 then (if IsLeapYear(y) then 29 else 28)
    else if m == 3 || m == 5 || m == 8 || m == 10 then 30
    else 31
  }

  /** Days in the months of year `y` that come before month `m`. */
  function DaysBeforeMonth(y: int, m: int): int
    requires 0 <= m <= 12
  {
    if m == 0 then 0 else DaysBeforeMonth(y, m - 1) + DaysInMonth(y, m - 1)
  }

  /** Days in the years before year `y`, counted from year 1. */
  function DaysBeforeYear(y: int): int {
    var p := y - 1;
    365 * p + p / 4 - p / 100 + p / 400
  }

  /** The absolute number of day `d` of month `m` of year `y`; 1 January of year 1 is day 1.
      Any `d` is allowed: day 0 is the last day of the previous month, and so on. */
  function DayNumber(y: int, m: int, d: int): int
    requires 0 <= m < 12
  {
    DaysBeforeYear(y) + DaysBeforeMonth(y, m) + d
  }

  function DateNumber(date: Date): int
    requires 0 <= date.month < 12
  {
    DayNumber(date.year, date.month, date.day)
  }

  /** getDay(): 0 is Sunday. 1 January of year 1 was a Monday. */
  function Weekday(y: int, m: int, d: int): (w: int)
    requires 0 <= m < 12
    ensures 0 <= w < 7
  {
    DayNumber(y, m, d) % 7
  }

  /** The weekday numbering agrees with the calendar: 1 January 2024 was a Monday,
      1 March 2000 a Wednesday and 3 October 2025 a Friday. */
  lemma WeekdayAnchors()
    ensures Weekday(2024, 0, 1) == 1 && Weekday(2000, 2, 1) == 3 && Weekday(2025, 9, 3) == Friday
  {
  }

  predicate ValidDate(date: Date) {
    0 <= date.month < 12 && 1 <= date.day <= DaysInMonth(date.year, date.month)
  }

  /** Lexicographic order on (year, month, day). */
  predicate Before(a: Date, b: Date) {
    a.year < b.year || (a.year == b.year && (a.month < b.month || (a.month == b.month && a.day < b.day)))
  }

  /** The month after (y, m): the year advances after December. */
  function NextMonth(y: int, m: int): (r: (int, int))
    requires 0 <= m < 12
    ensures 0 <= r.1 < 12
  {
    (if m == 11 then y + 1 else y, (m + 1) % 12)
  }

  function PrevMonth(y: int, m: int): (r: (int, int))
    requires 0 <= m < 12
    ensures 0 <= r.1 < 12
    ensures NextMonth(r.0, r.1) == (y, m)
  {
    if m == 0 then (y - 1, 11) else (y, m - 1)
  }

  /** p / k counts one more multiple of k below or at p + 1 exactly when k divides p + 1. */
  lemma DivStep(p: int, k: int)
    requires k == 4 || k == 100 || k == 400
    ensures (p + 1) / k == p / k + (if (p + 1) % k == 0 then 1 else 0)
  {
  }

  lemma DaysInYear(y: int)
    ensures DaysBeforeMonth(y, 12) == if IsLeapYear(y) then 366 else 365
  {
    var f := if IsLeapYear(y) then 29 else 28;
    assert DaysBeforeMonth(y, 1) == 31;
    assert DaysBeforeMonth(y, 2) == 31 + f;
    assert DaysBeforeMonth(y, 3) == 62 + f;
    assert DaysBeforeMonth(y, 4) == 92 + f;
    assert DaysBeforeMonth(y, 5) == 123 + f;
    assert DaysBeforeMonth(y, 6) == 153 + f;
    assert DaysBeforeMonth(y, 7) == 184 + f;
    assert DaysBeforeMonth(y, 8) == 215 + f;
    assert DaysBeforeMonth(y, 9) == 245 + f;
    assert DaysBeforeMonth(y, 10) == 276 + f;
    assert DaysBeforeMonth(y, 11) == 306 + f;
  }

  /** A year is as long as the Gregorian leap rule says. */
  lemma YearStep(y: int)
    ensures DaysBeforeYear(y + 1) == DaysBeforeYear(y) + DaysBeforeMonth(y, 12)
  {
    DivStep(y - 1, 4);
    DivStep(y - 1, 100);
    DivStep(y - 1, 400);
    DaysInYear(y);
  }

  /** Counting `d` days into the next month is counting `d` plus this month's length into this one. */
  lemma NextMonthShift(y: int, m: int, d: int)
    requires 0 <= m < 12
    ensures var (ny, nm) := NextMonth(y, m);
            DayNumber(ny, nm, d) == DayNumber(y, m, d + DaysInMonth(y, m))
  {
    if m == 11 {
      YearStep(y);
    }
  }

  /** Date.setDate(d) on a date in month (y, m): the valid date that is the same absolute day. */
  function Normalize(y: int, m: int, d: int): (r: Date)
    requires 0 <= m < 12
    ensures ValidDate(r) && DateNumber(r) == DayNumber(y, m, d)
    decreases if d < 1 then 1 - d else 0, if d > DaysInMonth(y, m) then d else 0
  {
    if d < 1 then
      var (py, pm) := PrevMonth(y, m);
      NextMonthShift(py, pm, d);
      Normalize(py, pm, d + DaysInMonth(py, pm))
    else if d > DaysInMonth(y, m) then
      var (ny, nm) := NextMonth(y, m);
      NextMonthShift(y, m, d - DaysInMonth(y, m));
      Normalize(ny, nm, d - DaysInMonth(y, m))
    else
      Date(y, m, d)
  }

  lemma {:induction false} DaysBeforeMonthMonotone(y: int, m: int, n: int)
    requires 0 <= m <= n <= 12
    ensures DaysBeforeMonth(y, m) + (if m < n then DaysInMonth(y, m) else 0) <= DaysBeforeMonth(y, n)
  {
    if m < n {
      DaysBeforeMonthMonotone(y, m, n - 1);
    }
  }

  lemma {:induction false} DaysBeforeYearMonotone(y: int, z: int)
    requires y <= z
    ensures DaysBeforeYear(y) <= DaysBeforeYear(z)
    decreases z - y
  {
  }

  /** Absolute day numbers order valid dates as the calendar does. */
  lemma DateNumberOrder(a: Date, b: Date)
    requires ValidDate(a) && ValidDate(b)
    ensures Before(a, b) <==> DateNumber(a) < DateNumber(b)
    ensures a == b <==> DateNumber(a) == DateNumber(b)
  {
    if Before(a, b) {
      BeforeNumber(a, b);
    } else if Before(b, a) {
      BeforeNumber(b, a);
    }
  }

  lemma BeforeNumber(a: Date, b: Date)
    requires ValidDate(a) && ValidDate(b) && Before(a, b)
    ensures DateNumber(a) < DateNumber(b)
  {
    if a.year < b.year {
      DaysBeforeMonthMonotone(a.year, a.month, 12);
      YearStep(a.year);
      DaysBeforeYearMonotone(a.year + 1, b.year);
      DaysBeforeMonthMonotone(b.year, 0, b.month);
    } else if a.month < b.month {
      DaysBeforeMonthMonotone(a.year, a.month, b.month);
    }
  }

  /** One week later is the same weekday. */
  lemma WeekdayShift(y: int, m: int, d: int, weeks: int)
    requires 0 <= m < 12
    ensures Weekday(y, m, d + 7 * weeks) == Weekday(y, m, d)
  {
  }

  /** The day of the first Friday of month (y, m). */
  function FirstFridayDay(y: int, m: int): (f: int)
    requires 0 <= m < 12
    ensures 1 <= f <= 7 && Weekday(y, m, f) == Friday
    ensures forall d :: 1 <= d < f ==> Weekday(y, m, d) != Friday
  {
    1 + (Friday - Weekday(y, m, 1)) % 7
  }

  /** `date` is the n-th Friday of its month. */
  predicate IsNthFriday(date: Date, n: int) {
    && ValidDate(date)
    && Weekday(date.year, date.month, date.day) == Friday
    && 7 * (n - 1) < date.day <= 7 * n
  }

  /** The n-th Friday of a month is the first Friday plus n - 1 weeks. */
  lemma NthFridayUnique(date: Date, n: int)
    requires IsNthFriday(date, n)
    ensures date.day == FirstFridayDay(date.year, date.month) + 7 * (n - 1)
  {
    var f := FirstFridayDay(date.year, date.month);
    var d0 := date.day - 7 * (n - 1);
    WeekdayShift(date.year, date.month, d0, n - 1);
    assert Weekday(date.year, date.month, d0) == Friday;
    assert 1 <= d0 <= 7;
    if d0 != f {
      assert d0 > f;
      WeekdayDistinct(date.year, date.month, f, d0);
    }
  }

  lemma WeekdayDistinct(y: int, m: int, d: int, e: int)
    requires 0 <= m < 12 && d < e < d + 7
    ensures Weekday(y, m, d) != Weekday(y, m, e)
  {
  }
}
