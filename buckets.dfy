/** The month bucketing of `getMonthsRange`, which the expense and the
    income utilities implement identically over their own record type. */
module MonthBuckets {
  import opened Calendar
  import opened Seqs

  /** One calendar month of records with their summed amount. */
  datatype MonthData<T> = MonthData(month: int, year: int, records: seq<T>, total: real)

  /** The records dated from `start` to `end` inclusive, in their original
      order: the store's `gte`/`lte` date filter and the per-month filter of the buckets. */
  function InDateRange<T(!new)>(data: seq<T>, dateOf: T -> Date, start: Date, end: Date): (r: seq<T>)
    ensures forall x :: x in r <==> x in data && OnOrBefore(start, dateOf(x)) && OnOrBefore(dateOf(x), end)
  {
    if data == [] then []
    else
      var x := data[0];
      (if OnOrBefore(start, dateOf(x)) && OnOrBefore(dateOf(x), end) then [x] else [])
        + InDateRange(data[1..], dateOf, start, end)
  }

  /** The date filter keeps each record at most as often as the data holds it. */
  lemma {:induction false} InDateRangeSubMultiset<T(!new)>(data: seq<T>, dateOf: T -> Date, start: Date, end: Date)
    ensures multiset(InDateRange(data, dateOf, start, end)) <= multiset(data)
  {
    if data != [] {
      assert data == [data[0]] + data[1..];
      InDateRangeSubMultiset(data[1..], dateOf, start, end);
    }
  }

  /** The date filter distributes over concatenation, so the records it
      keeps stay in their original relative order. */
  lemma {:induction false} InDateRangeConcat<T(!new)>(a: seq<T>, b: seq<T>, dateOf: T -> Date, start: Date, end: Date)
    ensures InDateRange(a + b, dateOf, start, end) == InDateRange(a, dateOf, start, end) + InDateRange(b, dateOf, start, end)
  {
    if a == [] {
      assert a + b == b;
    } else {
      assert (a + b)[1..] == a[1..] + b;
      InDateRangeConcat(a[1..], b, dateOf, start, end);
    }
  }

  /** The date filter keeps every record in range as often as the data holds
      it, and no other record. */
  lemma {:induction false} InDateRangeCount<T(!new)>(data: seq<T>, dateOf: T -> Date, start: Date, end: Date, x: T)
    ensures multiset(InDateRange(data, dateOf, start, end))[x]
            == if OnOrBefore(start, dateOf(x)) && OnOrBefore(dateOf(x), end) then multiset(data)[x] else 0
  {
    if data != [] {
      assert data == [data[0]] + data[1..];
      InDateRangeCount(data[1..], dateOf, start, end, x);
    }
  }

  /** The month that bucket `i` covers: `today` moved back `i` months with `setMonth`. */
  function BucketDate(today: Date, i: int): (r: Date)
    ensures ValidDate(r)
  {
    ShiftMonths(today, -i)
  }

  /** The bucket of the month of `d`: the records from its first to its last day and their sum. */
  function BucketOf<T(!new)>(d: Date, data: seq<T>, dateOf: T -> Date, amountOf: T -> real): MonthData<T>
    requires ValidDate(d)
  {
    var records := InDateRange(data, dateOf, Date(d.year, d.month0, 1), LastDayOfMonth(d.year, d.month0));
    MonthData(d.month0, d.year, records, Sum(records, amountOf))
  }

  /** Bucket `i` as the loop body builds it. */
  function Bucket<T(!new)>(today: Date, i: int, data: seq<T>, dateOf: T -> Date, amountOf: T -> real): MonthData<T> {
    BucketOf(BucketDate(today, i), data, dateOf, amountOf)
  }

  /** The grouping loop: one bucket per `i` in `0..range-1`, the current month first. */
  method MonthsRange<T(!new)>(today: DateTime, range: int, data: seq<T>, dateOf: T -> Date, amountOf: T -> real)
    returns (months: seq<MonthData<T>>)
    requires ValidDateTime(today)
    ensures |months| == if range > 0 then range else 0
    ensures forall i :: 0 <= i < |months| ==> months[i] == Bucket(today.date, i, data, dateOf, amountOf)
  {
    ghost var bucket := j => Bucket(today.date, j, data, dateOf, amountOf);
    months := [];
    var i := 0;
    while i < range
      invariant 0 <= i <= (if range > 0 then range else 0)
      invariant |months| == i
      invariant months == Tabulate(i, bucket)
    {
      // `new Date(today)` followed by `setMonth(today.getMonth() - i)`
      var date := Normalize(today.date.year, today.date.month0 - i, today.date.day);
      var month := date.month0;
      var year := date.year;
      var monthStart := Normalize(year, month, 1);
      var monthEnd := Normalize(year, month + 1, 0);
      var records := InDateRange(data, dateOf, monthStart, monthEnd);
      var total := Sum(records, amountOf);
      BucketStep(today.date, i, year, month, data, dateOf, amountOf);
      months := months + [MonthData(month, year, records, total)];
      i := i + 1;
    }
    forall j | 0 <= j < |months|
      ensures months[j] == Bucket(today.date, j, data, dateOf, amountOf)
    {
      TabulateIndex(|months|, bucket, j);
    }
  }

  /** The bucket built from the month and year that `setMonth` produced is bucket `i`. */
  lemma BucketStep<T(!new)>(today: Date, i: int, year: int, month: int, data: seq<T>, dateOf: T -> Date, amountOf: T -> real)
    requires year == BucketDate(today, i).year && month == BucketDate(today, i).month0
    ensures var records := InDateRange(data, dateOf, Normalize(year, month, 1), Normalize(year, month + 1, 0));
            MonthData(month, year, records, Sum(records, amountOf)) == Bucket(today, i, data, dateOf, amountOf)
  {
    MonthEnds(year, month);
  }

  /** Each bucket names a month 0..11, holds exactly the records of that
      calendar month, and its total is the sum of their amounts. */
  lemma BucketContents<T(!new)>(today: Date, i: int, data: seq<T>, dateOf: T -> Date, amountOf: T -> real, x: T)
    requires forall y :: y in data ==> ValidDate(dateOf(y))
    ensures var b := Bucket(today, i, data, dateOf, amountOf);
            && 0 <= b.month < 12
            && b.total == Sum(b.records, amountOf)
            && (x in b.records <==> x in data && InMonth(dateOf(x), b.year, b.month))
  {
    var d := BucketDate(today, i);
    if x in data {
      MonthBoundsExact(dateOf(x), d.year, d.month0);
    }
  }

  /** Bucket `i` lies `i` months back, or one month later when `setMonth`
      overflowed the day; bucket 0 is always the current month. */
  lemma BucketMonthBounds(today: Date, i: int)
    requires ValidDate(today)
    ensures MonthIndex(today) - i <= MonthIndex(BucketDate(today, i)) <= MonthIndex(today) - i + 1
    ensures i == 0 ==> BucketDate(today, i) == today
  {
    ShiftMonthsBounds(today, -i);
  }

  /** When today's day is at most 28, bucket `i` is exactly `i` months before today. */
  lemma BucketMonthExact(today: Date, i: int)
    requires ValidDate(today) && today.day <= 28
    ensures MonthIndex(BucketDate(today, i)) == MonthIndex(today) - i
  {
    ShiftMonthsSmallDay(today, -i);
  }

  /** When today's day is at most 28, a record falls in bucket `i` exactly
      when its month is `i` months before today; so each record of the last
      `range` months lies in exactly one of the `range` buckets. */
  lemma BucketsPartition<T(!new)>(today: Date, i: int, data: seq<T>, dateOf: T -> Date, amountOf: T -> real, x: T)
    requires ValidDate(today) && today.day <= 28
    requires forall y :: y in data ==> ValidDate(dateOf(y))
    requires x in data
    ensures x in Bucket(today, i, data, dateOf, amountOf).records <==> MonthIndex(dateOf(x)) == MonthIndex(today) - i
  {
    BucketContents(today, i, data, dateOf, amountOf, x);
    BucketMonthExact(today, i);
    MonthIndexInjective(dateOf(x), BucketDate(today, i));
  }

  /** With today 2024-03-31, buckets 0 and 1 are both March 2024, and a
      record dated 2024-02-15 lands in no bucket at all. */
  lemma BucketSkipsFebruary<T(!new)>(data: seq<T>, dateOf: T -> Date, amountOf: T -> real, x: T, i: int)
    requires forall y :: y in data ==> ValidDate(dateOf(y))
    requires x in data && dateOf(x) == Date(2024, 1, 15)
    ensures BucketDate(Date(2024, 2, 31), 1) == Date(2024, 2, 2)
    ensures x !in Bucket(Date(2024, 2, 31), i, data, dateOf, amountOf).records
  {
    var today := Date(2024, 2, 31);
    ShiftMonthsSkipsFebruary();
    BucketContents(today, i, data, dateOf, amountOf, x);
    BucketMonthBounds(today, i);
  }

  /** The bucket `i` months before `today` with the day clamped to the
      target month, so that every bucket is a distinct month. */
  function IntendedBucket<T(!new)>(today: Date, i: int, data: seq<T>, dateOf: T -> Date, amountOf: T -> real): MonthData<T>
    requires ValidDate(today)
  {
    var d := AddMonthsClamped(today, -i);
    var records := InDateRange(data, dateOf, Date(d.year, d.month0, 1), LastDayOfMonth(d.year, d.month0));
    MonthData(d.month0, d.year, records, Sum(records, amountOf))
  }

  /** For every day of the month, a record falls in intended bucket `i`
      exactly when its month is `i` months before today's. */
  lemma IntendedBucketsPartition<T(!new)>(today: Date, i: int, data: seq<T>, dateOf: T -> Date, amountOf: T -> real, x: T)
    requires ValidDate(today)
    requires forall y :: y in data ==> ValidDate(dateOf(y))
    requires x in data
    ensures x in IntendedBucket(today, i, data, dateOf, amountOf).records <==> MonthIndex(dateOf(x)) == MonthIndex(today) - i
  {
    var d := AddMonthsClamped(today, -i);
    var b := IntendedBucket(today, i, data, dateOf, amountOf);
    assert b.records == InDateRange(data, dateOf, Date(d.year, d.month0, 1), LastDayOfMonth(d.year, d.month0));
    MonthBoundsExact(dateOf(x), d.year, d.month0);
    MonthIndexInjective(dateOf(x), d);
  }

  /** The first day of the fetch window: `new Date(year, month - range + 1, 1)`. */
  function WindowStart(today: Date, range: int): (r: Date)
    ensures ValidDate(r) && r.day == 1 && MonthIndex(r) == MonthIndex(today) - range + 1
  {
    NormalizeFirstDay(today.year, today.month0 - range + 1);
    Normalize(today.year, today.month0 - range + 1, 1)
  }

  /** The last day of the fetch window: `new Date(year, month + 1, 0)`. */
  function WindowEnd(today: Date): (r: Date)
    ensures ValidDate(today) ==> r == LastDayOfMonth(today.year, today.month0)
  {
    if ValidDate(today) then MonthEnds(today.year, today.month0); Normalize(today.year, today.month0 + 1, 0)
    else Normalize(today.year, today.month0 + 1, 0)
  }

  /** The fetch window runs from the first day of the month `range - 1`
      months back to the last day of the current month, and contains every
      bucket's month. */
  lemma BucketInsideWindow(today: Date, range: int, i: int, d: Date)
    requires ValidDate(today) && 0 <= i < range
    requires InMonth(d, BucketDate(today, i).year, BucketDate(today, i).month0)
    ensures WindowStart(today, range) == FirstDayOfIndex(MonthIndex(today) - range + 1)
    ensures WindowEnd(today) == LastDayOfMonth(today.year, today.month0)
    ensures OnOrBefore(WindowStart(today, range), d) && OnOrBefore(d, WindowEnd(today))
  {
    BucketMonthBounds(today, i);
    MonthEnds(today.year, today.month0);
    NormalizeFirstDay(today.year, today.month0 - range + 1);
    var first, last := FirstDayOfIndex(MonthIndex(today) - range + 1), LastDayOfMonth(today.year, today.month0);
    assert MonthIndex(first) <= MonthIndex(d) <= MonthIndex(last);
    MonthSpanContains(d, first, last);
  }

  /** Bucketing the rows fetched for the window gives, in every bucket,
      exactly the rows of all the user's rows that fall in that bucket's
      month: the window loses nothing a bucket needs. */
  lemma WindowBucketContents<T(!new)>(today: Date, range: int, i: int, all: seq<T>, fetched: seq<T>,
                                      dateOf: T -> Date, amountOf: T -> real, x: T)
    requires ValidDate(today) && 0 <= i < range
    requires forall y :: y in all ==> ValidDate(dateOf(y))
    requires forall y :: y in fetched <==> y in all && OnOrBefore(WindowStart(today, range), dateOf(y)) && OnOrBefore(dateOf(y), WindowEnd(today))
    ensures var b := Bucket(today, i, fetched, dateOf, amountOf);
            && 0 <= b.month < 12
            && b.total == Sum(b.records, amountOf)
            && (x in b.records <==> x in all && InMonth(dateOf(x), b.year, b.month))
  {
    BucketContents(today, i, fetched, dateOf, amountOf, x);
    var d := BucketDate(today, i);
    if x in all && InMonth(dateOf(x), d.year, d.month0) {
      BucketInsideWindow(today, range, i, dateOf(x));
    }
  }

  /** When the rows fetched are, counted with multiplicity, the rows of `all`
      in the window, bucket `i` holds exactly the rows of `all` dated in its
      month, each as often as `all` holds it, and totals their amounts. */
  lemma WindowBucketRecords<T(!new)>(today: Date, range: int, i: int, all: seq<T>, fetched: seq<T>,
                                     dateOf: T -> Date, amountOf: T -> real)
    requires ValidDate(today) && 0 <= i < range
    requires forall y :: y in all ==> ValidDate(dateOf(y))
    requires multiset(fetched) == multiset(InDateRange(all, dateOf, WindowStart(today, range), WindowEnd(today)))
    ensures var b := Bucket(today, i, fetched, dateOf, amountOf);
            && 0 <= b.month < 12
            && var mine := InDateRange(all, dateOf, Date(b.year, b.month, 1), LastDayOfMonth(b.year, b.month));
               multiset(b.records) == multiset(mine) && b.total == Sum(mine, amountOf)
  {
    var d := BucketDate(today, i);
    var lo, hi := Date(d.year, d.month0, 1), LastDayOfMonth(d.year, d.month0);
    var b := Bucket(today, i, fetched, dateOf, amountOf);
    var mine := InDateRange(all, dateOf, lo, hi);
    forall x
      ensures multiset(b.records)[x] == multiset(mine)[x]
    {
      InDateRangeCount(fetched, dateOf, lo, hi, x);
      InDateRangeCount(all, dateOf, lo, hi, x);
      InDateRangeCount(all, dateOf, WindowStart(today, range), WindowEnd(today), x);
      if x in all && OnOrBefore(lo, dateOf(x)) && OnOrBefore(dateOf(x), hi) {
        MonthBoundsExact(dateOf(x), d.year, d.month0);
        BucketInsideWindow(today, range, i, dateOf(x));
      }
    }
    assert multiset(b.records) == multiset(mine);
    SumPermutation(b.records, mine, amountOf);
  }

  /** What `getMonthsRange` promises: `range` buckets (none for a range of 0
      or less), the current month first. Bucket `i` names the month of
      `today` moved back `i` months with `setMonth`, which is `i` months
      back or, when the day overflowed, `i - 1`; with a day of at most 28 it
      is exactly `i` months back. Each bucket names a month 0..11, holds
      exactly the rows of `all` dated in that month, each as often as `all`
      holds it, and totals their amounts. */
  ghost predicate MonthsOf<T(!new)>(months: seq<MonthData<T>>, today: Date, range: int, all: seq<T>,
                              dateOf: T -> Date, amountOf: T -> real)
  {
    && |months| == (if range > 0 then range else 0)
    && (|months| > 0 ==> months[0].year == today.year && months[0].month == today.month0)
    && (forall i :: 0 <= i < |months| ==>
          && 0 <= months[i].month < 12
          && months[i].total == Sum(months[i].records, amountOf)
          && multiset(months[i].records)
             == multiset(InDateRange(all, dateOf, Date(months[i].year, months[i].month, 1), LastDayOfMonth(months[i].year, months[i].month)))
          && months[i].total
             == Sum(InDateRange(all, dateOf, Date(months[i].year, months[i].month, 1), LastDayOfMonth(months[i].year, months[i].month)), amountOf)
          && months[i].year == BucketDate(today, i).year && months[i].month == BucketDate(today, i).month0
          && MonthIndex(today) - i <= months[i].year * 12 + months[i].month <= MonthIndex(today) - i + 1
          && (today.day <= 28 ==> months[i].year * 12 + months[i].month == MonthIndex(today) - i))
    && (forall i, x :: 0 <= i < |months| ==>
          (x in months[i].records <==> x in all && InMonth(dateOf(x), months[i].year, months[i].month)))
  }

  /** The buckets of the rows fetched for the window are the months of all the rows. */
  lemma WindowMonths<T(!new)>(today: Date, range: int, months: seq<MonthData<T>>, all: seq<T>, fetched: seq<T>,
                              dateOf: T -> Date, amountOf: T -> real)
    requires ValidDate(today)
    requires forall y :: y in all ==> ValidDate(dateOf(y))
    requires forall y :: y in fetched <==> y in all && OnOrBefore(WindowStart(today, range), dateOf(y)) && OnOrBefore(dateOf(y), WindowEnd(today))
    requires multiset(fetched) == multiset(InDateRange(all, dateOf, WindowStart(today, range), WindowEnd(today)))
    requires |months| == (if range > 0 then range else 0)
    requires forall i :: 0 <= i < |months| ==> months[i] == Bucket(today, i, fetched, dateOf, amountOf)
    ensures MonthsOf(months, today, range, all, dateOf, amountOf)
  {
    forall i, x | 0 <= i < |months|
      ensures 0 <= months[i].month < 12
      ensures months[i].total == Sum(months[i].records, amountOf)
      ensures x in months[i].records <==> x in all && InMonth(dateOf(x), months[i].year, months[i].month)
    {
      WindowBucketContents(today, range, i, all, fetched, dateOf, amountOf, x);
    }
    forall i | 0 <= i < |months|
      ensures 0 <= months[i].month < 12
      ensures var mine := InDateRange(all, dateOf, Date(months[i].year, months[i].month, 1), LastDayOfMonth(months[i].year, months[i].month));
              multiset(months[i].records) == multiset(mine) && months[i].total == Sum(mine, amountOf)
    {
      WindowBucketRecords(today, range, i, all, fetched, dateOf, amountOf);
    }
    forall i | 0 <= i < |months|
      ensures MonthIndex(today) - i <= months[i].year * 12 + months[i].month <= MonthIndex(today) - i + 1
      ensures today.day <= 28 ==> months[i].year * 12 + months[i].month == MonthIndex(today) - i
    {
      BucketMonthBounds(today, i);
      if today.day <= 28 {
        BucketMonthExact(today, i);
      }
    }
    if |months| > 0 {
      BucketMonthBounds(today, 0);
    }
  }
}
