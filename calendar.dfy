/** Gregorian calendar days as a JavaScript `Date` reports them (single time
    zone): a full year, a month 0..11 and a day of the month, with the
    day-overflow rollover that `setMonth`, `setDate` and `new Date(y, m, d)`
    apply. */
module Calendar {

  /** A calendar day; `month0` counts from 0 like `Date.getMonth`. */
  datatype Date = Date(year: int, month0: int, day: int)

  const MsPerDay: int := 86_400_000

  /** A `Date` object's value: a calendar day plus the milliseconds since midnight. */
  datatype DateTime = DateTime(date: Date, msOfDay: int)

  predicate IsLeapYear(y: int) {
    y % 4 == 0 && (y % 100 != 0 || y % 400 == 0)
  }

  function DaysInMonth(y: int, m: int): (n: int)
    requires 0 <= m < 12
    ensures 28 <= n <= 31
    ensures n == 29 <==> m == 1 && IsLeapYear(y)
    ensures n == 28 <==> m == 1 && !IsLeapYear(y)
  {
    if m == 1 then (if IsLeapYear(y) then 29 else 28)
    else if m == 3 || m == 5 || m == 8 || m == 10 then 30
    else 31
  }

  predicate ValidDate(d: Date) {
    0 <= d.month0 < 12 && 1 <= d.day <= DaysInMonth(d.year, d.month0)
  }

  predicate ValidDateTime(t: DateTime) {
    ValidDate(t.date) && 0 <= t.msOfDay < MsPerDay
  }

  /** Months since year 0: consecutive calendar months have consecutive indices. */
  function MonthIndex(d: Date): int {
    d.year * 12 + d.month0
  }

  /** A key whose order on valid dates is the calendar order (a day is at most 31). */
  function DayKey(d: Date): int {
    MonthIndex(d) * 32 + d.day
  }

  /** `a <= b` on calendar days; the store compares `YYYY-MM-DD` strings, which order the same way. */
  predicate OnOrBefore(a: Date, b: Date) {
    DayKey(a) <= DayKey(b)
  }

  /** Different (year, month) pairs have different month indices. */
  lemma MonthIndexInjective(a: Date, b: Date)
    requires 0 <= a.month0 < 12 && 0 <= b.month0 < 12
    ensures MonthIndex(a) == MonthIndex(b) <==> a.year == b.year && a.month0 == b.month0
  {
  }

  /** True of the valid dates that fall in month `m` of year `y`. */
  predicate InMonth(d: Date, y: int, m: int) {
    ValidDate(d) && d.year == y && d.month0 == m
  }

  /** Day `d >= 1` counted from the first of month `m` of year `y`, carried
      forward over month ends. */
  function RollForward(y: int, m: int, d: int): (r: Date)
    requires 0 <= m < 12 && 1 <= d
    ensures ValidDate(r)
    decreases d
  {
    var dim := DaysInMonth(y, m);
    if d <= dim then Date(y, m, d)
    else if m == 11 then RollForward(y + 1, 0, d - dim)
    else RollForward(y, m + 1, d - dim)
  }

  /** Day `d <= 0` of month `m` of year `y`, carried backward into earlier months. */
  function RollBackward(y: int, m: int, d: int): (r: Date)
    requires 0 <= m < 12 && d < 1
    ensures ValidDate(r)
    decreases -d
  {
    var py := if m == 0 then y - 1 else y;
    var pm := if m == 0 then 11 else m - 1;
    var d2 := d + DaysInMonth(py, pm);
    if 1 <= d2 then Date(py, pm, d2) else RollBackward(py, pm, d2)
  }

  /** ECMAScript MakeDay: day `d` of month `m` of year `y`, where `m` and `d`
      may lie outside their ranges and are rolled over, never clamped; a
      month outside 0..11 carries into the year twelve months at a time. */
  function Normalize(y: int, m: int, d: int): (r: Date)
    ensures ValidDate(r)
    decreases if m < 0 then 12 - m else m
  {
    if m < 0 then Normalize(y - 1, m + 12, d)
    else if 12 <= m then Normalize(y + 1, m - 12, d)
    else if 1 <= d then RollForward(y, m, d) else RollBackward(y, m, d)
  }

  /** The month carry in closed form: year `y + m / 12`, month `m % 12`
      (floor division, as MakeDay specifies). */
  lemma {:induction false} NormalizeCarry(y: int, m: int, d: int)
    ensures var y1, m1 := y + m / 12, m % 12;
            Normalize(y, m, d) == if 1 <= d then RollForward(y1, m1, d) else RollBackward(y1, m1, d)
    decreases if m < 0 then 12 - m else m
  {
    if m < 0 {
      NormalizeCarry(y - 1, m + 12, d);
      assert (y - 1) + (m + 12) / 12 == y + m / 12 && (m + 12) % 12 == m % 12;
    } else if 12 <= m {
      NormalizeCarry(y + 1, m - 12, d);
      assert (y + 1) + (m - 12) / 12 == y + m / 12 && (m - 12) % 12 == m % 12;
    }
  }

  /** Rolling forward never lands before month `m`, and stays in it exactly
      when the month has day `d`. */
  lemma {:induction false} RollForwardIndex(y: int, m: int, d: int)
    requires 0 <= m < 12 && 1 <= d
    ensures MonthIndex(RollForward(y, m, d)) >= y * 12 + m
    ensures d <= DaysInMonth(y, m) <==> MonthIndex(RollForward(y, m, d)) == y * 12 + m
    decreases d
  {
    var dim := DaysInMonth(y, m);
    if d > dim {
      if m == 11 {
        RollForwardIndex(y + 1, 0, d - dim);
      } else {
        RollForwardIndex(y, m + 1, d - dim);
      }
    }
  }

  /** Rolling backward always lands before month `m`. */
  lemma {:induction false} RollBackwardIndex(y: int, m: int, d: int)
    requires 0 <= m < 12 && d < 1
    ensures MonthIndex(RollBackward(y, m, d)) < y * 12 + m
    decreases -d
  {
    var py := if m == 0 then y - 1 else y;
    var pm := if m == 0 then 11 else m - 1;
    var d2 := d + DaysInMonth(py, pm);
    if d2 < 1 {
      RollBackwardIndex(py, pm, d2);
    }
  }

  /** A positive day never moves the month back; a day of 0 or less always does. */
  lemma NormalizeIndex(y: int, m: int, d: int)
    ensures 1 <= d ==> MonthIndex(Normalize(y, m, d)) >= y * 12 + m
    ensures d < 1 ==> MonthIndex(Normalize(y, m, d)) < y * 12 + m
  {
    var y1 := y + m / 12;
    var m1 := m % 12;
    NormalizeCarry(y, m, d);
    assert y1 * 12 + m1 == y * 12 + m;
    if 1 <= d {
      RollForwardIndex(y1, m1, d);
    } else {
      RollBackwardIndex(y1, m1, d);
    }
  }

  /** `date.setMonth(date.getMonth() + k)` on the calendar day `d`. */
  function ShiftMonths(d: Date, k: int): (r: Date)
    ensures ValidDate(r)
  {
    Normalize(d.year, d.month0 + k, d.day)
  }

  /** `date.setDate(k)` on the calendar day `d`. */
  function SetDate(d: Date, k: int): (r: Date)
    ensures ValidDate(r)
  {
    Normalize(d.year, d.month0, k)
  }

  /** `setHours(h, mi, s, ms)` on `t`: the time of day is replaced and any
      overflow or underflow of it carries into the day, whole days at a time
      (floor division, as MakeTime and MakeDate specify). */
  function WithTime(t: DateTime, h: int, mi: int, s: int, ms: int): (r: DateTime)
    ensures ValidDateTime(r)
    ensures 0 <= h < 24 && 0 <= mi < 60 && 0 <= s < 60 && 0 <= ms < 1000 ==>
              r.msOfDay == ((h * 60 + mi) * 60 + s) * 1000 + ms
    ensures ValidDate(t.date) && 0 <= h < 24 && 0 <= mi < 60 && 0 <= s < 60 && 0 <= ms < 1000 ==>
              r.date == t.date
  {
    var total := ((h * 60 + mi) * 60 + s) * 1000 + ms;
    DateTime(Normalize(t.date.year, t.date.month0, t.date.day + total / MsPerDay), total % MsPerDay)
  }

  /** The last day of month `m` of year `y`. */
  function LastDayOfMonth(y: int, m: int): (r: Date)
    requires 0 <= m < 12
    ensures ValidDate(r) && r.year == y && r.month0 == m
  {
    Date(y, m, DaysInMonth(y, m))
  }

  /** The month index `t` as a (year, month) first day. */
  function FirstDayOfIndex(t: int): (r: Date)
    ensures ValidDate(r) && MonthIndex(r) == t && r.day == 1
  {
    Date(t / 12, t % 12, 1)
  }

  /** `new Date(y, m, 1)` for any month number `m` is the first day of the
      month `m` months after January of year `y`. */
  lemma NormalizeFirstDay(y: int, m: int)
    ensures Normalize(y, m, 1) == FirstDayOfIndex(y * 12 + m)
  {
    NormalizeCarry(y, m, 1);
    assert (y * 12 + m) / 12 == y + m / 12 && (y * 12 + m) % 12 == m % 12;
  }

  /** A valid date is its own normal form. */
  lemma NormalizeValid(d: Date)
    requires ValidDate(d)
    ensures Normalize(d.year, d.month0, d.day) == d
  {
  }

  /** The rollover of a month-shift: the target month keeps the day when it
      has that many days; otherwise the surplus days spill into the next month. */
  lemma ShiftMonthsCases(d: Date, k: int)
    requires ValidDate(d)
    ensures var t := FirstDayOfIndex(MonthIndex(d) + k);
            var r := ShiftMonths(d, k);
            if d.day <= DaysInMonth(t.year, t.month0)
            then r == Date(t.year, t.month0, d.day)
            else MonthIndex(r) == MonthIndex(d) + k + 1 && r.day == d.day - DaysInMonth(t.year, t.month0)
  {
    var t := FirstDayOfIndex(MonthIndex(d) + k);
    var y1 := d.year + (d.month0 + k) / 12;
    var m1 := (d.month0 + k) % 12;
    NormalizeCarry(d.year, d.month0 + k, d.day);
    assert y1 == t.year && m1 == t.month0;
    var dim := DaysInMonth(y1, m1);
    if dim < d.day {
      var ny := if m1 == 11 then y1 + 1 else y1;
      var nm := if m1 == 11 then 0 else m1 + 1;
      assert d.day - dim <= 3 <= DaysInMonth(ny, nm);
      assert RollForward(ny, nm, d.day - dim) == Date(ny, nm, d.day - dim);
    }
  }

  /** When the day is at most 28, shifting by `k` months keeps the day and
      moves the month index by exactly `k`, carrying into the year. */
  lemma ShiftMonthsSmallDay(d: Date, k: int)
    requires ValidDate(d) && d.day <= 28
    ensures ShiftMonths(d, k).day == d.day
    ensures MonthIndex(ShiftMonths(d, k)) == MonthIndex(d) + k
  {
    ShiftMonthsCases(d, k);
  }

  /** A month-shift lands in the target month or, on overflow, the month after it. */
  lemma ShiftMonthsBounds(d: Date, k: int)
    requires ValidDate(d)
    ensures MonthIndex(d) + k <= MonthIndex(ShiftMonths(d, k)) <= MonthIndex(d) + k + 1
    ensures k == 0 ==> ShiftMonths(d, k) == d
  {
    ShiftMonthsCases(d, k);
  }

  /** Shifting a date forward and back by one month restores it when its day is at most 28. */
  lemma ShiftMonthsRoundTrip(d: Date, k: int)
    requires ValidDate(d) && d.day <= 28
    ensures ShiftMonths(ShiftMonths(d, k), -k) == d
  {
    ShiftMonthsSmallDay(d, k);
    var e := ShiftMonths(d, k);
    ShiftMonthsSmallDay(e, -k);
    assert MonthIndex(ShiftMonths(e, -k)) == MonthIndex(d);
  }

  /** `setDate(0)` lands on the last day of the previous month. */
  lemma SetDateZero(d: Date)
    requires ValidDate(d)
    ensures var r := SetDate(d, 0);
            MonthIndex(r) == MonthIndex(d) - 1 && r.day == DaysInMonth(r.year, r.month0)
  {
  }

  /** `new Date(y, m, 1)` and `new Date(y, m + 1, 0)` are the first and the last day of month `m`. */
  lemma MonthEnds(y: int, m: int)
    requires 0 <= m < 12
    ensures Normalize(y, m, 1) == Date(y, m, 1)
    ensures Normalize(y, m + 1, 0) == LastDayOfMonth(y, m)
  {
    NormalizeValid(Date(y, m, 1));
    SetDateZero(FirstDayOfIndex(y * 12 + m + 1));
  }

  /** The first and last day of a month bound exactly the valid dates in that month. */
  lemma MonthBoundsExact(d: Date, y: int, m: int)
    requires 0 <= m < 12 && ValidDate(d)
    ensures OnOrBefore(Date(y, m, 1), d) && OnOrBefore(d, LastDayOfMonth(y, m)) <==> InMonth(d, y, m)
  {
    var lo, hi := Date(y, m, 1), LastDayOfMonth(y, m);
    assert hi.day <= 31 && d.day <= 31;
    if OnOrBefore(lo, d) && OnOrBefore(d, hi) {
      assert MonthIndex(d) == MonthIndex(lo);
      MonthIndexInjective(d, lo);
    }
  }

  /** Every valid day of the months from the first day `a` to the last day `b` lies between them. */
  lemma MonthSpanContains(d: Date, a: Date, b: Date)
    requires ValidDate(d) && ValidDate(a) && ValidDate(b)
    requires a.day == 1 && b.day == DaysInMonth(b.year, b.month0)
    requires MonthIndex(a) <= MonthIndex(d) <= MonthIndex(b)
    ensures OnOrBefore(a, d) && OnOrBefore(d, b)
  {
    if MonthIndex(d) == MonthIndex(b) {
      assert d.year == b.year && d.month0 == b.month0;
    }
  }

  /** 2024-01-31 moved one month forward with `setMonth` is 2024-03-02, not 2024-02-29. */
  lemma ShiftMonthsSkipsFebruary()
    ensures ShiftMonths(Date(2024, 0, 31), 1) == Date(2024, 2, 2)
    ensures ShiftMonths(Date(2024, 2, 31), -1) == Date(2024, 2, 2)
  {
    ShiftMonthsCases(Date(2024, 0, 31), 1);
    ShiftMonthsCases(Date(2024, 2, 31), -1);
  }

  /** A month shift that clamps the day to the target month's length
      (2024-01-31 plus one month is 2024-02-29). */
  function AddMonthsClamped(d: Date, k: int): (r: Date)
    requires ValidDate(d)
    ensures ValidDate(r)
    ensures MonthIndex(r) == MonthIndex(d) + k
    ensures r.day <= d.day
    ensures r.day == d.day || r.day == DaysInMonth(r.year, r.month0)
  {
    var t := FirstDayOfIndex(MonthIndex(d) + k);
    var dim := DaysInMonth(t.year, t.month0);
    Date(t.year, t.month0, if d.day <= dim then d.day else dim)
  }

  /** The clamped shift moves by exactly `k` months for every day, and agrees
      with `setMonth` whenever the target month has the day. */
  lemma AddMonthsClampedAgrees(d: Date, k: int)
    requires ValidDate(d)
    ensures ShiftMonths(d, k) == AddMonthsClamped(d, k) <==> AddMonthsClamped(d, k).day == d.day
    ensures AddMonthsClamped(Date(2024, 0, 31), 1) == Date(2024, 1, 29)
  {
    ShiftMonthsCases(d, k);
  }
}
