/** A mutable JavaScript `Date` object, as the dashboard and the utilities
    use it: copied with `new Date(d)` and then changed step by step. */
module JsDates {
  import opened Calendar

  class JsDate {
    var year: int
    var month0: int
    var day: int
    var msOfDay: int

    /** A `Date` object always holds a real calendar day and time of day. */
    ghost predicate Valid()
      reads this
    {
      ValidDateTime(Value())
    }

    /** The moment this object currently denotes. */
    function Value(): DateTime
      reads this
    {
      DateTime(Date(year, month0, day), msOfDay)
    }

    /** `new Date(t)`: a fresh copy of the moment `t`. */
    constructor (t: DateTime)
      requires ValidDateTime(t)
      ensures Valid() && Value() == t
    {
      year, month0, day, msOfDay := t.date.year, t.date.month0, t.date.day, t.msOfDay;
    }

    /** `setMonth(m)`: the day of the month and the time are kept and the
        result is rolled over, so day 31 in a 30-day month becomes the 1st
        of the next month. */
    method SetMonth(m: int)
      requires Valid()
      modifies this
      ensures Valid()
      ensures Value() == DateTime(Normalize(old(year), m, old(day)), old(msOfDay))
    {
      var d := Normalize(year, m, day);
      year, month0, day := d.year, d.month0, d.day;
    }

    /** `setDate(d)`: day 0 is the last day of the previous month. */
    method SetDate(d: int)
      requires Valid()
      modifies this
      ensures Valid()
      ensures Value() == DateTime(Calendar.SetDate(old(Value()).date, d), old(msOfDay))
    {
      var n := Normalize(year, month0, d);
      year, month0, day := n.year, n.month0, n.day;
    }

    /** `setHours(h, mi, s, ms)`. */
    method SetHours(h: int, mi: int, s: int, ms: int)
      requires Valid()
      modifies this
      ensures Valid()
      ensures Value() == WithTime(old(Value()), h, mi, s, ms)
    {
      var t := WithTime(Value(), h, mi, s, ms);
      year, month0, day, msOfDay := t.date.year, t.date.month0, t.date.day, t.msOfDay;
    }
  }
}
