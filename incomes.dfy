/** The income utilities: inserting one income as submitted, the range
    query with its error fallback, the month buckets, and delete by id. */
module Incomes {
  import opened Outcomes
  import opened Calendar
  import opened Seqs
  import opened MonthBuckets
  import opened Tables

  type UserId = string

  /** `INCOME_CATEGORIES`: the income categories the forms offer. */
  const IncomeCategories: seq<string> :=
    ["Salário", "Freelance", "Investimentos", "Aluguel", "Bônus", "Outros"]

  datatype RecurrencePeriod = Monthly | Yearly

  /** What the form submits: an income without id, owner or creation time. */
  datatype IncomeInput = IncomeInput(
    date: Date,
    description: string,
    amount: real,
    category: string,
    isRecurring: Option<bool>,
    recurrencePeriod: Option<RecurrencePeriod>)

  /** A row as it is inserted: the submitted fields plus the owner. */
  datatype IncomeRow = IncomeRow(input: IncomeInput, userId: UserId)

  /** A stored income. */
  type Income = Stored<IncomeRow>

  function IncomeDate(e: Income): Date { e.row.input.date }

  function IncomeAmount(e: Income): real { e.row.input.amount }

  function IncomeOwner(r: IncomeRow): UserId { r.userId }

  /** Sort key of `order('date', { ascending: false })`. */
  function NewestFirst(e: Income): int { -DayKey(e.row.input.date) }

  /** The user's incomes dated from `start` to `end` inclusive. */
  function RowsInRange(rows: seq<Income>, u: UserId, start: Date, end: Date): (r: seq<Income>)
    ensures forall e :: e in r <==> e in rows && e.row.userId == u && OnOrBefore(start, e.row.input.date) && OnOrBefore(e.row.input.date, end)
  {
    InDateRange(OwnedBy(rows, IncomeOwner, u), IncomeDate, start, end)
  }

  /** The query returns each of the user's incomes at most as often as the table holds it. */
  lemma RowsInRangeSubMultiset(rows: seq<Income>, u: UserId, start: Date, end: Date)
    ensures multiset(RowsInRange(rows, u, start, end)) <= multiset(rows)
  {
    OwnedBySubMultiset(rows, IncomeOwner, u);
    InDateRangeSubMultiset(OwnedBy(rows, IncomeOwner, u), IncomeDate, start, end);
  }

  /** Deleting by id removes exactly the row with that id when it is present,
      and leaves the rows unchanged when it is not. */
  lemma DeleteIncomeEffect(rows: seq<Income>, id: int)
    requires UniqueIds(rows)
    ensures FindById(rows, id).None? ==> WithoutId(rows, id) == rows
    ensures FindById(rows, id).Some? ==> |WithoutId(rows, id)| == |rows| - 1
  {
    if FindById(rows, id).None? {
      WithoutIdAbsent(rows, id);
    } else {
      var k :| 0 <= k < |rows| && rows[k] == FindById(rows, id).value;
      WithoutIdRemovesOne(rows, k);
    }
  }

  /** The `incomes` table: its rows in insertion order and the next id it assigns. */
  class IncomeStore {
    var rows: seq<Income>
    var nextId: int

    /** Ids are unique and in `0..nextId-1`; every stored date is a calendar day. */
    ghost predicate Valid()
      reads this
    {
      && 0 <= nextId
      && UniqueIds(rows)
      && (forall e :: e in rows ==> 0 <= e.id < nextId)
      && (forall e :: e in rows ==> ValidDate(e.row.input.date))
    }

    constructor ()
      ensures Valid() && rows == [] && nextId == 0
    {
      rows, nextId := [], 0;
    }

    /** `saveIncome`: no user raises "Usuário não autenticado" and inserts
        nothing; otherwise exactly one row, the input plus the owner, is
        inserted, whether or not it is marked recurring. */
    method SaveIncome(user: Option<UserId>, input: IncomeInput, fault: bool) returns (r: Result<seq<Income>>)
      requires Valid() && ValidDate(input.date)
      modifies this
      ensures Valid()
      ensures user.None? ==> r == Err(NotAuthenticated) && rows == old(rows) && nextId == old(nextId)
      ensures user.Some? && fault ==> r == Err(StoreError) && rows == old(rows) && nextId == old(nextId)
      ensures user.Some? && !fault ==>
                var added := Stored(old(nextId), IncomeRow(input, user.value));
                r == Ok([added]) && rows == old(rows) + [added] && nextId == old(nextId) + 1
    {
      if user.None? {
        return Err(NotAuthenticated);
      }
      var incomeData := IncomeRow(input, user.value);
      if fault {
        return Err(StoreError);
      }
      var added := Stamp(nextId, [incomeData]);
      StampAppend(rows, nextId, [incomeData]);
      assert added == [Stored(nextId, incomeData)];
      rows := rows + added;
      nextId := nextId + 1;
      r := Ok(added);
    }

    /** `getIncomes(start, end)`: the user's incomes dated from `start` to
        `end` inclusive, newest first; any failure, a missing user included,
        yields `[]` instead of an error. */
    method GetIncomes(user: Option<UserId>, start: Date, end: Date, fault: bool) returns (r: seq<Income>)
      ensures user.None? || fault ==> r == []
      ensures user.Some? && !fault ==>
                && multiset(r) == multiset(RowsInRange(rows, user.value, start, end))
                && SortedBy(r, NewestFirst)
      ensures forall e :: e in r <==>
                user.Some? && !fault && e in rows && e.row.userId == user.value
                && OnOrBefore(start, e.row.input.date) && OnOrBefore(e.row.input.date, end)
    {
      if user.None? || fault {
        return [];
      }
      r := SortBy(RowsInRange(rows, user.value, start, end), NewestFirst);
      assert forall e :: e in r <==> e in multiset(r);
    }

    /** `getMonthsRange(range)` of the income utilities: the same window and
        bucketing as for expenses. */
    method GetMonthsRange(user: Option<UserId>, now: DateTime, range: int, fault: bool)
      returns (r: Result<seq<MonthData<Income>>>)
      requires Valid() && ValidDateTime(now)
      ensures user.None? ==> r == Err(NotAuthenticated)
      ensures user.Some? && fault ==> r == Err(StoreError)
      ensures user.Some? && !fault ==>
                r.Ok? && MonthsOf(r.value, now.date, range, OwnedBy(rows, IncomeOwner, user.value), IncomeDate, IncomeAmount)
    {
      if user.None? {
        return Err(NotAuthenticated);
      }
      var startDate := WindowStart(now.date, range);
      var endDate := WindowEnd(now.date);
      if fault {
        return Err(StoreError);
      }
      var all := OwnedBy(rows, IncomeOwner, user.value);
      var fetched := SortBy(RowsInRange(rows, user.value, startDate, endDate), NewestFirst);
      assert forall e :: e in fetched <==> e in multiset(fetched);
      var months := MonthsRange(now, range, fetched, IncomeDate, IncomeAmount);
      WindowMonths(now.date, range, months, all, fetched, IncomeDate, IncomeAmount);
      r := Ok(months);
    }

    /** `deleteIncome(id)`: deletes the row with that id, with no check that
        it exists, so an absent id changes nothing and raises nothing. */
    method DeleteIncome(id: int, fault: bool) returns (o: Outcome)
      requires Valid()
      modifies this
      ensures Valid() && nextId == old(nextId)
      ensures fault ==> o == Fail(StoreError) && rows == old(rows)
      ensures !fault ==> o == Pass && rows == WithoutId(old(rows), id)
    {
      if fault {
        return Fail(StoreError);
      }
      rows := WithoutId(rows, id);
      o := Pass;
    }
  }
}
