/**
 * The month grid of the due-date calendar: six weeks of seven cells, the
 * trailing days of the previous month, the days of the month, then the
 * leading days of the next month. The weekday of the 1st and the two month
 * lengths are the inputs the component derives from `Date`.
 */
module Calendar {

  /**
   * One grid cell. `monthOffset` is -1, 0 or 1 for the previous, the shown or
   * the next month; together with `day` it is the cell's date.
   */
  datatype CalendarDay = CalendarDay(day: int, isCurrentMonth: bool, monthOffset: int)

  /** Number of iterations of a `for (k = 1; k <= n; k++)` loop. */
  function Iterations(n: int): nat {
    if n > 0 then n else 0
  }

  /** Cells the third loop adds: what is left of the 42 after the first two loops. */
  function NextMonthCells(firstDayWeekday: int, daysInMonth: int): nat {
    Iterations(42 - Iterations(firstDayWeekday) - Iterations(daysInMonth))
  }

  /** `calendarDays`, built by three `push` loops. */
  method CalendarDays(firstDayWeekday: int, daysInMonth: int, prevMonthLastDay: int) returns (days: seq<CalendarDay>)
    ensures |days| == Iterations(firstDayWeekday) + Iterations(daysInMonth) + NextMonthCells(firstDayWeekday, daysInMonth)
    ensures forall k :: 0 <= k < Iterations(firstDayWeekday) ==>
      days[k] == CalendarDay(prevMonthLastDay - Iterations(firstDayWeekday) + 1 + k, false, -1)
    ensures forall k :: Iterations(firstDayWeekday) <= k < Iterations(firstDayWeekday) + Iterations(daysInMonth) ==>
      days[k] == CalendarDay(k - Iterations(firstDayWeekday) + 1, true, 0)
    ensures forall k :: Iterations(firstDayWeekday) + Iterations(daysInMonth) <= k < |days| ==>
      days[k] == CalendarDay(k - Iterations(firstDayWeekday) - Iterations(daysInMonth) + 1, false, 1)
    ensures Iterations(firstDayWeekday) + Iterations(daysInMonth) <= 42 ==> |days| == 42
    ensures 0 <= firstDayWeekday <= 6 && daysInMonth <= 31 ==> |days| == 42
  {
    var lead := Iterations(firstDayWeekday);
    var mid := Iterations(daysInMonth);
    days := [];

    // previous month's trailing days
    var i := firstDayWeekday - 1;
    while i >= 0
      invariant firstDayWeekday > 0 ==> -1 <= i
      invariant firstDayWeekday <= 0 ==> i == firstDayWeekday - 1
      invariant |days| == firstDayWeekday - 1 - i
      invariant forall k :: 0 <= k < |days| ==>
        days[k] == CalendarDay(prevMonthLastDay - lead + 1 + k, false, -1)
    {
      days := days + [CalendarDay(prevMonthLastDay - i, false, -1)];
      i := i - 1;
    }
    assert |days| == lead;

    // current month's days
    var day := 1;
    while day <= daysInMonth
      invariant if daysInMonth >= 1 then 1 <= day <= daysInMonth + 1 else day == 1
      invariant |days| == lead + day - 1
      invariant forall k :: 0 <= k < lead ==>
        days[k] == CalendarDay(prevMonthLastDay - lead + 1 + k, false, -1)
      invariant forall k :: lead <= k < |days| ==> days[k] == CalendarDay(k - lead + 1, true, 0)
    {
      days := days + [CalendarDay(day, true, 0)];
      day := day + 1;
    }
    assert |days| == lead + mid;

    // next month's leading days
    var remaining := 42 - |days|;
    ghost var rest := NextMonthCells(firstDayWeekday, daysInMonth);
    day := 1;
    while day <= remaining
      invariant if remaining >= 1 then 1 <= day <= remaining + 1 else day == 1
      invariant |days| == lead + mid + day - 1
      invariant forall k :: 0 <= k < lead ==>
        days[k] == CalendarDay(prevMonthLastDay - lead + 1 + k, false, -1)
      invariant forall k :: lead <= k < lead + mid ==> days[k] == CalendarDay(k - lead + 1, true, 0)
      invariant forall k :: lead + mid <= k < |days| ==> days[k] == CalendarDay(k - lead - mid + 1, false, 1)
    {
      days := days + [CalendarDay(day, false, 1)];
      day := day + 1;
    }
    assert day - 1 == rest;
  }
}
