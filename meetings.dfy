/** The meetings section: the club meets on the first and third Friday of each month,
    and the page shows the next such Friday. */
module Meetings {
  import opened Calendar

  const MsPerDay: int := 86400000

  /** A local date and time: a date and the milliseconds since its midnight. */
  datatype DateTime = DateTime(date: Date, msOfDay: int)

  predicate ValidDateTime(t: DateTime) {
    ValidDate(t.date) && 0 <= t.msOfDay < MsPerDay
  }

  /** Date.prototype.valueOf in local time, up to a constant offset. */
  function Timestamp(t: DateTime): int
    requires 0 <= t.date.month < 12
  {
    DateNumber(t.date) * MsPerDay + t.msOfDay
  }

  /** The instant a date begins: what new Date(y, m, d) denotes. */
  function Midnight(date: Date): DateTime {
    DateTime(date, 0)
  }

  /** An instant is before a date's midnight exactly when its own date is an earlier day. */
  lemma BeforeMidnight(t: DateTime, date: Date)
    requires ValidDateTime(t) && ValidDate(date)
    ensures Timestamp(t) < Timestamp(Midnight(date)) <==> DateNumber(t.date) < DateNumber(date)
  {
  }

  /** nthFriday: walks from the 1st of the month to its first Friday, then adds n - 1 weeks
      with setDate, which carries into other months when the day leaves this one. */
  method NthFriday(year: int, month: int, n: int) returns (r: Date)
    requires 0 <= month < 12
    ensures ValidDate(r) && Weekday(r.year, r.month, r.day) == Friday
    ensures DateNumber(r) == DayNumber(year, month, FirstFridayDay(year, month)) + 7 * (n - 1)
    ensures 1 <= n <= 4 ==> r.year == year && r.month == month && IsNthFriday(r, n)
  {
    var d := 1;
    while Weekday(year, month, d) != Friday
      invariant 1 <= d <= FirstFridayDay(year, month)
      decreases FirstFridayDay(year, month) - d
    {
      d := d + 1;
    }
    assert d == FirstFridayDay(year, month);
    r := Normalize(year, month, d + 7 * (n - 1));
    WeekdayShift(year, month, d, n - 1);
    assert DayNumber(r.year, r.month, r.day) == DayNumber(year, month, d + 7 * (n - 1));
    if 1 <= n <= 4 {
      assert r == Date(year, month, d + 7 * (n - 1));
    }
  }

  /** nextFirstOrThirdFriday: the first Friday of the month of `from` if it is still to come,
      else the third Friday if that is still to come, else the first Friday of next month. */
  method NextFirstOrThirdFriday(from: DateTime) returns (r: Date)
    requires ValidDateTime(from)
    ensures IsNthFriday(r, 1) || IsNthFriday(r, 3)
    ensures Timestamp(from) < Timestamp(Midnight(r))
    // no first or third Friday begins between `from` and `r`
    ensures forall e :: (IsNthFriday(e, 1) || IsNthFriday(e, 3)) && Timestamp(from) < Timestamp(Midnight(e)) ==>
              DateNumber(r) <= DateNumber(e)
  {
    var y := from.date.year;
    var m := from.date.month;
    var first := NthFriday(y, m, 1);
    var third := NthFriday(y, m, 3);
    if Timestamp(from) < Timestamp(Midnight(first)) {
      r := first;
    } else if Timestamp(from) < Timestamp(Midnight(third)) {
      r := third;
    } else {
      var nm := (m + 1) % 12;
      var ny := if m == 11 then y + 1 else y;
      r := NthFriday(ny, nm, 1);
    }
    NextMeetingIsEarliest(from, first, third, r);
  }

  /** The selection NextFirstOrThirdFriday makes is a later first or third Friday,
      and no first or third Friday begins between `from` and it. */
  lemma NextMeetingIsEarliest(from: DateTime, first: Date, third: Date, r: Date)
    requires ValidDateTime(from) && IsNthFriday(first, 1) && IsNthFriday(third, 3)
    requires first.year == third.year == from.date.year && first.month == third.month == from.date.month
    requires IsNthFriday(r, 1) || IsNthFriday(r, 3)
    requires r == first || r == third ||
             (r.day <= 7 && (r.year, r.month) == NextMonth(from.date.year, from.date.month))
    requires r == first ==> Timestamp(from) < Timestamp(Midnight(first))
    requires r == third ==> Timestamp(Midnight(first)) <= Timestamp(from) < Timestamp(Midnight(third))
    requires r != first && r != third ==> Timestamp(Midnight(third)) <= Timestamp(from)
    ensures Timestamp(from) < Timestamp(Midnight(r))
    ensures forall e :: (IsNthFriday(e, 1) || IsNthFriday(e, 3)) && Timestamp(from) < Timestamp(Midnight(e)) ==>
              DateNumber(r) <= DateNumber(e)
  {
    BeforeMidnight(from, first);
    BeforeMidnight(from, third);
    BeforeMidnight(from, r);
    if r != first && r != third {
      DateNumberOrder(from.date, r);
    }
    forall e | (IsNthFriday(e, 1) || IsNthFriday(e, 3)) && Timestamp(from) < Timestamp(Midnight(e))
      ensures DateNumber(r) <= DateNumber(e)
    {
      BeforeMidnight(from, e);
      NoMeetingBetween(from.date, first, third, r, e);
    }
  }

  /** The case analysis behind NextFirstOrThirdFriday's last postcondition, on day numbers. */
  lemma NoMeetingBetween(today: Date, first: Date, third: Date, r: Date, e: Date)
    requires ValidDate(today) && IsNthFriday(first, 1) && IsNthFriday(third, 3)
    requires first.year == third.year == today.year && first.month == third.month == today.month
    requires IsNthFriday(r, 1) || IsNthFriday(r, 3)
    requires r == first || r == third ||
             (r.day <= 7 && (r.year, r.month) == NextMonth(today.year, today.month))
    requires r == first ==> DateNumber(today) < DateNumber(first)
    requires r == third ==> DateNumber(first) <= DateNumber(today) < DateNumber(third)
    requires r != first && r != third ==> DateNumber(third) <= DateNumber(today)
    requires IsNthFriday(e, 1) || IsNthFriday(e, 3)
    requires DateNumber(today) < DateNumber(e)
    ensures DateNumber(r) <= DateNumber(e)
  {
    DateNumberOrder(today, e);
    DateNumberOrder(e, r);
    DateNumberOrder(today, first);
    DateNumberOrder(today, third);
    MeetingOrder(today, first, third, r, e);
  }

  /** The same case analysis on calendar order: a first or third Friday after `today`
      is not before the one selected. */
  lemma MeetingOrder(today: Date, first: Date, third: Date, r: Date, e: Date)
    requires IsNthFriday(first, 1) && IsNthFriday(third, 3)
    requires first.year == third.year == today.year && first.month == third.month == today.month
    requires IsNthFriday(r, 1) || IsNthFriday(r, 3)
    requires r == first || r == third ||
             (r.day <= 7 && (r.year, r.month) == NextMonth(today.year, today.month))
    requires r == first ==> Before(today, first)
    requires r == third ==> !Before(today, first) && Before(today, third)
    requires r != first && r != third ==> !Before(today, third)
    requires IsNthFriday(e, 1) || IsNthFriday(e, 3)
    requires Before(today, e)
    ensures !Before(e, r)
  {
    if e.year == today.year && e.month == today.month {
      // the first and third Fridays of this month are those two days
      NthFridayUnique(first, 1);
      NthFridayUnique(third, 3);
      if IsNthFriday(e, 1) { NthFridayUnique(e, 1); } else { NthFridayUnique(e, 3); }
    } else if (e.year, e.month) == (r.year, r.month) {
      // e lies in the month after today's, where r is the first Friday
      if IsNthFriday(e, 1) { NthFridayUnique(e, 1); } else { NthFridayUnique(e, 3); }
      if IsNthFriday(r, 1) { NthFridayUnique(r, 1); } else { NthFridayUnique(r, 3); }
    }
  }
}
