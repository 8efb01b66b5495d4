/** The month window the dashboard and the diagnostics panel query: two
    copies of the current date, one moved to the first day at midnight and
    one moved with `setMonth(+1)` then `setDate(0)` to 23:59:59.999. */
module MonthWindows {
  import opened Calendar
  import opened JsDates

  /** The first and the last moment of the queried window. */
  datatype Window = Window(start: DateTime, end: DateTime)

  const LastMsOfDay: int := MsPerDay - 1

  /** The window as the step-by-step `Date` mutations compute it. */
  function WindowOf(current: DateTime): Window {
    var start := WithTime(DateTime(SetDate(current.date, 1), current.msOfDay), 0, 0, 0, 0);
    var end := WithTime(DateTime(SetDate(ShiftMonths(current.date, 1), 0), current.msOfDay), 23, 59, 59, 999);
    Window(start, end)
  }

  /** `fetchTotals` and `fetchData`: `startDate` and `endDate` built from
      copies of `currentDate`. */
  method MonthWindow(current: DateTime) returns (w: Window)
    requires ValidDateTime(current)
    ensures w == WindowOf(current)
  {
    var startDate := new JsDate(current);
    startDate.SetDate(1);
    startDate.SetHours(0, 0, 0, 0);

    var endDate := new JsDate(current);
    endDate.SetMonth(endDate.month0 + 1);
    endDate.SetDate(0);
    endDate.SetHours(23, 59, 59, 999);

    w := Window(startDate.Value(), endDate.Value());
  }

  /** The window starts on day 1 of the current month at 00:00:00.000. */
  lemma WindowStartsOnFirst(current: DateTime)
    requires ValidDateTime(current)
    ensures WindowOf(current).start == DateTime(Date(current.date.year, current.date.month0, 1), 0)
  {
    NormalizeValid(Date(current.date.year, current.date.month0, 1));
  }

  /** The window ends at 23:59:59.999 on the last day of a month: the current
      month when the next month has the current day, and otherwise the next
      month, because `setMonth` overflowed into the month after it. */
  lemma WindowEndsOnLastDay(current: DateTime)
    requires ValidDateTime(current)
    ensures var e := WindowOf(current).end;
            var next := FirstDayOfIndex(MonthIndex(current.date) + 1);
            && e.msOfDay == LastMsOfDay
            && ValidDate(e.date) && e.date.day == DaysInMonth(e.date.year, e.date.month0)
            && (current.date.day <= DaysInMonth(next.year, next.month0) ==> e.date == LastDayOfMonth(current.date.year, current.date.month0))
            && (current.date.day > DaysInMonth(next.year, next.month0) ==> e.date == LastDayOfMonth(next.year, next.month0))
  {
    var shifted := ShiftMonths(current.date, 1);
    ShiftMonthsCases(current.date, 1);
    SetDateZero(shifted);
    var ld := SetDate(shifted, 0);
    NormalizeValid(ld);
    var next := FirstDayOfIndex(MonthIndex(current.date) + 1);
    if current.date.day <= DaysInMonth(next.year, next.month0) {
      MonthIndexInjective(ld, current.date);
    } else {
      MonthIndexInjective(ld, next);
    }
  }

  /** With a day of at most 28 the window is exactly the current month. */
  lemma WindowSmallDay(current: DateTime)
    requires ValidDateTime(current) && current.date.day <= 28
    ensures WindowOf(current).end == DateTime(LastDayOfMonth(current.date.year, current.date.month0), LastMsOfDay)
  {
    WindowEndsOnLastDay(current);
  }

  /** On 2024-01-31 the window runs to 2024-02-29, taking in all of February. */
  lemma WindowOverflow(ms: int)
    requires 0 <= ms < MsPerDay
    ensures WindowOf(DateTime(Date(2024, 0, 31), ms)).end == DateTime(Date(2024, 1, 29), LastMsOfDay)
  {
    WindowEndsOnLastDay(DateTime(Date(2024, 0, 31), ms));
  }

  /** The window computed as `new Date(y, m, 1)` to `new Date(y, m + 1, 0)`
      at 23:59:59.999, which does not depend on the current day. */
  function IntendedWindow(current: DateTime): (w: Window)
    requires ValidDateTime(current)
    ensures w.start == DateTime(Date(current.date.year, current.date.month0, 1), 0)
    ensures w.end == DateTime(LastDayOfMonth(current.date.year, current.date.month0), LastMsOfDay)
  {
    MonthEnds(current.date.year, current.date.month0);
    var y, m := current.date.year, current.date.month0;
    Window(DateTime(Normalize(y, m, 1), 0), DateTime(Normalize(y, m + 1, 0), LastMsOfDay))
  }

  /** A day lies in the intended window exactly when it lies in the current
      month, whatever the current day; the written window agrees with it for
      days up to 28. */
  lemma IntendedWindowIsMonth(current: DateTime, d: Date)
    requires ValidDateTime(current) && ValidDate(d)
    ensures var w := IntendedWindow(current);
            OnOrBefore(w.start.date, d) && OnOrBefore(d, w.end.date) <==> InMonth(d, current.date.year, current.date.month0)
    ensures current.date.day <= 28 ==> WindowOf(current) == IntendedWindow(current)
  {
    MonthBoundsExact(d, current.date.year, current.date.month0);
    WindowStartsOnFirst(current);
    if current.date.day <= 28 {
      WindowSmallDay(current);
    }
  }
}
