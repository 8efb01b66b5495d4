/** The expense utilities: expanding one purchase into its monthly
    installment rows, and the operations on the `expenses` table (insert,
    range query, future query, delete, month buckets). */
module Expenses {
  import opened Outcomes
  import opened Calendar
  import opened JsDates
  import opened Seqs
  import opened MonthBuckets
  import opened Tables

  type UserId = string
  type GroupId = string

  /** `CATEGORIES`: the expense categories the forms offer. */
  const Categories: seq<string> :=
    ["Alimentação", "Transporte", "Moradia", "Saúde", "Educação", "Lazer", "Compras", "Outros"]

  /** What the form submits: an expense without id, owner or creation time. */
  datatype ExpenseInput = ExpenseInput(
    date: Date,
    description: string,
    amount: real,
    category: string,
    installments: Option<int>)

  /** A row as it is inserted into the table. */
  datatype ExpenseRow = ExpenseRow(
    description: string,
    date: Date,
    amount: real,
    category: string,
    totalAmount: real,
    installments: Option<int>,
    installmentNumber: Option<int>,
    installmentGroupId: Option<GroupId>,
    userId: UserId)

  /** A stored expense. */
  type Expense = Stored<ExpenseRow>

  function ExpenseOwner(r: ExpenseRow): UserId { r.userId }

  function ExpenseDate(e: Expense): Date { e.row.date }

  function ExpenseAmount(e: Expense): real { e.row.amount }

  /** Sort key of `order('date', { ascending: false })`. */
  function NewestFirst(e: Expense): int { -DayKey(e.row.date) }

  /** Sort key of `order('date', { ascending: true })`. */
  function OldestFirst(e: Expense): int { DayKey(e.row.date) }

  // ---------------------------------------------------------------------
  // Installment expansion

  /** `expense.installments || 1`: a missing value and 0 both mean one installment. */
  function InstallmentCount(input: ExpenseInput): (n: int)
    ensures input.installments == None || input.installments == Some(0) ==> n == 1
    ensures input.installments.Some? && input.installments.value != 0 ==> n == input.installments.value
  {
    match input.installments
    case None => 1
    case Some(k) => if k == 0 then 1 else k
  }

  /** The number of rows the loop `for (i = 0; i < installments; i++)` builds. */
  function RowCount(input: ExpenseInput): nat {
    var n := InstallmentCount(input);
    if n > 0 then n else 0
  }

  /** Row `i` of the expansion, dated `date` (the base date moved `i` months on). */
  function InstallmentRow(input: ExpenseInput, user: UserId, groupId: GroupId, i: int, date: Date): ExpenseRow {
    var n := InstallmentCount(input);
    ExpenseRow(
      input.description,
      date,
      input.amount,
      input.category,
      if n > 1 then input.amount * n as real else input.amount,
      if n > 1 then Some(n) else None,
      if n > 1 then Some(i + 1) else None,
      if n > 1 then Some(groupId) else None,
      user)
  }

  /** All the rows `saveExpense` inserts for `input`: row `i` is dated with
      `setMonth(baseDate.getMonth() + i)` on a copy of the base date. */
  function InstallmentRows(input: ExpenseInput, user: UserId, groupId: GroupId): (rows: seq<ExpenseRow>)
    ensures |rows| == RowCount(input)
  {
    seq(RowCount(input), i requires 0 <= i < RowCount(input) =>
      InstallmentRow(input, user, groupId, i, ShiftMonths(input.date, i)))
  }

  /** The expansion loop of `saveExpense`: a fresh copy of the base date per
      installment, moved on with `setMonth`. */
  method ExpandInstallments(input: ExpenseInput, user: UserId, groupId: GroupId) returns (rows: seq<ExpenseRow>)
    requires ValidDate(input.date)
    ensures rows == InstallmentRows(input, user, groupId)
  {
    var installments := InstallmentCount(input);
    var baseDate := new JsDate(DateTime(input.date, 0));
    rows := [];
    var i := 0;
    while i < installments
      invariant 0 <= i <= RowCount(input)
      invariant baseDate.Valid() && baseDate.Value() == DateTime(input.date, 0)
      invariant |rows| == i
      invariant forall j :: 0 <= j < i ==> rows[j] == InstallmentRows(input, user, groupId)[j]
    {
      var currentDate := new JsDate(baseDate.Value());
      currentDate.SetMonth(baseDate.month0 + i);
      rows := rows + [InstallmentRow(input, user, groupId, i, currentDate.Value().date)];
      i := i + 1;
    }
  }

  /** A missing or zero installment count yields exactly one row; a count
      `n >= 1` yields exactly `n` rows; a negative count yields none. */
  lemma InstallmentRowCount(input: ExpenseInput, user: UserId, groupId: GroupId)
    ensures input.installments == None || input.installments == Some(0) ==> |InstallmentRows(input, user, groupId)| == 1
    ensures input.installments.Some? && input.installments.value >= 1 ==>
              |InstallmentRows(input, user, groupId)| == input.installments.value
    ensures input.installments.Some? && input.installments.value < 0 ==> InstallmentRows(input, user, groupId) == []
  {
  }

  /** With more than one installment, row `i` is installment `i + 1` of `n`,
      every row carries the same group id and the same total `amount * n`. */
  lemma InstallmentGroupShape(input: ExpenseInput, user: UserId, groupId: GroupId, i: int)
    requires InstallmentCount(input) > 1 && 0 <= i < RowCount(input)
    ensures var r := InstallmentRows(input, user, groupId)[i];
            && r.installments == Some(InstallmentCount(input))
            && r.installmentNumber == Some(i + 1)
            && r.installmentGroupId == Some(groupId)
            && r.totalAmount == input.amount * InstallmentCount(input) as real
  {
  }

  /** Installment numbers are distinct: two rows of one purchase never share a number. */
  lemma InstallmentNumbersDistinct(input: ExpenseInput, user: UserId, groupId: GroupId, i: int, j: int)
    requires InstallmentCount(input) > 1 && 0 <= i < j < RowCount(input)
    ensures InstallmentRows(input, user, groupId)[i].installmentNumber != InstallmentRows(input, user, groupId)[j].installmentNumber
  {
  }

  /** A single installment leaves the installment fields null and the total equal to the amount. */
  lemma SingleInstallmentShape(input: ExpenseInput, user: UserId, groupId: GroupId)
    requires ValidDate(input.date) && InstallmentCount(input) == 1
    ensures var rows := InstallmentRows(input, user, groupId);
            |rows| == 1
            && rows[0].installments == None && rows[0].installmentNumber == None
            && rows[0].installmentGroupId == None && rows[0].totalAmount == input.amount
            && rows[0].date == input.date
  {
    NormalizeValid(input.date);
  }

  /** Every row keeps the input's amount, description and category, belongs to
      the user, and all rows carry the same total. */
  lemma InstallmentRowsKeepFields(input: ExpenseInput, user: UserId, groupId: GroupId, i: int, j: int)
    requires 0 <= i < RowCount(input) && 0 <= j < RowCount(input)
    ensures var r := InstallmentRows(input, user, groupId)[i];
            && r.amount == input.amount && r.description == input.description
            && r.category == input.category && r.userId == user
            && r.totalAmount == InstallmentRows(input, user, groupId)[j].totalAmount
  {
  }

  /** Row `i` falls in the month `i` months after the base date's, or one month
      later when `setMonth` overflows; with a base day of at most 28 it keeps
      the day and lands exactly `i` months on, carrying into the year. */
  lemma InstallmentDates(input: ExpenseInput, user: UserId, groupId: GroupId, i: int)
    requires ValidDate(input.date) && 0 <= i < RowCount(input)
    ensures var d := InstallmentRows(input, user, groupId)[i].date;
            && ValidDate(d)
            && MonthIndex(input.date) + i <= MonthIndex(d) <= MonthIndex(input.date) + i + 1
            && (input.date.day <= 28 ==> d.day == input.date.day && MonthIndex(d) == MonthIndex(input.date) + i)
  {
    ShiftMonthsBounds(input.date, i);
    if input.date.day <= 28 {
      ShiftMonthsSmallDay(input.date, i);
    }
  }

  /** A purchase on 2024-01-31 in two installments has its second row dated
      2024-03-02, so no installment falls in February 2024. */
  lemma InstallmentSkipsFebruary(user: UserId, groupId: GroupId, description: string, category: string, amount: real)
    ensures var input := ExpenseInput(Date(2024, 0, 31), description, amount, category, Some(2));
            var rows := InstallmentRows(input, user, groupId);
            |rows| == 2 && rows[0].date == Date(2024, 0, 31) && rows[1].date == Date(2024, 2, 2)
            && forall k :: 0 <= k < |rows| ==> !InMonth(rows[k].date, 2024, 1)
  {
    var input := ExpenseInput(Date(2024, 0, 31), description, amount, category, Some(2));
    NormalizeValid(input.date);
    ShiftMonthsSkipsFebruary();
  }

  /** The expansion with each date clamped to the target month's last day. */
  function IntendedInstallmentRows(input: ExpenseInput, user: UserId, groupId: GroupId): (rows: seq<ExpenseRow>)
    requires ValidDate(input.date)
    ensures |rows| == RowCount(input)
  {
    seq(RowCount(input), i requires 0 <= i < RowCount(input) =>
      InstallmentRow(input, user, groupId, i, AddMonthsClamped(input.date, i)))
  }

  /** With clamping, installment `i` always falls exactly `i` months after the
      base date, so consecutive installments land in consecutive months, and
      it agrees with the `setMonth` expansion whenever the day exists. */
  lemma IntendedInstallmentMonths(input: ExpenseInput, user: UserId, groupId: GroupId, i: int)
    requires ValidDate(input.date) && 0 <= i < RowCount(input)
    ensures MonthIndex(IntendedInstallmentRows(input, user, groupId)[i].date) == MonthIndex(input.date) + i
    ensures input.date.day <= 28 ==> IntendedInstallmentRows(input, user, groupId)[i] == InstallmentRows(input, user, groupId)[i]
  {
    if input.date.day <= 28 {
      AddMonthsClampedAgrees(input.date, i);
    }
  }

  // ---------------------------------------------------------------------
  // The table

  /** The rows left after `delete().eq('installment_group_id', g)`. */
  function WithoutGroup(rows: seq<Expense>, g: GroupId): (r: seq<Expense>)
    ensures forall e :: e in r <==> e in rows && e.row.installmentGroupId != Some(g)
    ensures |r| <= |rows|
    ensures UniqueIds(rows) ==> UniqueIds(r)
  {
    if rows == [] then []
    else
      var rest := WithoutGroup(rows[1..], g);
      UniqueTail(rows);
      (if rows[0].row.installmentGroupId == Some(g) then [] else [rows[0]]) + rest
  }

  /** The user's rows dated from `start` to `end` inclusive. */
  function RowsInRange(rows: seq<Expense>, u: UserId, start: Date, end: Date): (r: seq<Expense>)
    ensures forall e :: e in r <==> e in rows && e.row.userId == u && OnOrBefore(start, e.row.date) && OnOrBefore(e.row.date, end)
  {
    InDateRange(OwnedBy(rows, ExpenseOwner, u), ExpenseDate, start, end)
  }

  /** The query returns each of the user's expenses at most as often as the table holds it. */
  lemma RowsInRangeSubMultiset(rows: seq<Expense>, u: UserId, start: Date, end: Date)
    ensures multiset(RowsInRange(rows, u, start, end)) <= multiset(rows)
  {
    OwnedBySubMultiset(rows, ExpenseOwner, u);
    InDateRangeSubMultiset(OwnedBy(rows, ExpenseOwner, u), ExpenseDate, start, end);
  }

  /** Deleting the group of a just-inserted installment purchase restores the
      table as it was before the insert, when the group id was fresh. */
  lemma {:induction false} DeleteSavedGroup(before: seq<Expense>, added: seq<Expense>, g: GroupId)
    requires forall e :: e in before ==> e.row.installmentGroupId != Some(g)
    requires forall e :: e in added ==> e.row.installmentGroupId == Some(g)
    ensures WithoutGroup(before + added, g) == before
  {
    if before == [] {
      assert before + added == added;
      AllInGroup(added, g);
    } else {
      assert before[0] in before;
      assert (before + added)[1..] == before[1..] + added;
      DeleteSavedGroup(before[1..], added, g);
      assert [before[0]] + before[1..] == before;
    }
  }

  /** Deleting a group every row belongs to empties the table. */
  lemma {:induction false} AllInGroup(rows: seq<Expense>, g: GroupId)
    requires forall e :: e in rows ==> e.row.installmentGroupId == Some(g)
    ensures WithoutGroup(rows, g) == []
  {
    if rows != [] {
      assert rows[0] in rows;
      AllInGroup(rows[1..], g);
    }
  }

  /** The `expenses` table: its rows in insertion order and the next id it assigns. */
  class ExpenseStore {
    var rows: seq<Expense>
    var nextId: int

    /** Ids are unique and in `0..nextId-1`; every stored date is a calendar day. */
    ghost predicate Valid()
      reads this
    {
      && 0 <= nextId
      && UniqueIds(rows)
      && (forall e :: e in rows ==> 0 <= e.id < nextId)
      && (forall e :: e in rows ==> ValidDate(e.row.date))
    }

    constructor ()
      ensures Valid() && rows == [] && nextId == 0
    {
      rows, nextId := [], 0;
    }

    /** `saveExpense`: no user raises "Usuário não autenticado" and inserts
        nothing; otherwise every installment row is inserted in one batch
        (`fault` stands for an error the store reports, which inserts nothing).
        `groupId` stands for `crypto.randomUUID()` and is fresh. */
    method SaveExpense(user: Option<UserId>, input: ExpenseInput, groupId: GroupId, fault: bool)
      returns (r: Result<seq<Expense>>)
      requires Valid() && ValidDate(input.date)
      // a `randomUUID()` is never empty, so `installment_group_id || null` keeps it
      requires groupId != ""
      requires forall e :: e in rows ==> e.row.installmentGroupId != Some(groupId)
      modifies this
      ensures Valid()
      ensures user.None? ==> r == Err(NotAuthenticated) && rows == old(rows) && nextId == old(nextId)
      ensures user.Some? && fault ==> r == Err(StoreError) && rows == old(rows) && nextId == old(nextId)
      ensures user.Some? && !fault ==>
                var added := Stamp(old(nextId), InstallmentRows(input, user.value, groupId));
                r == Ok(added) && rows == old(rows) + added && nextId == old(nextId) + |added|
    {
      if user.None? {
        return Err(NotAuthenticated);
      }
      var data := ExpandInstallments(input, user.value, groupId);
      if fault {
        return Err(StoreError);
      }
      var added := Stamp(nextId, data);
      StampAppend(rows, nextId, data);
      rows := rows + added;
      nextId := nextId + |data|;
      r := Ok(added);
    }

    /** `getExpenses(start, end)`: the user's rows dated from `start` to `end`
        inclusive, newest first; no user or a store error yields `[]`. */
    method GetExpenses(user: Option<UserId>, start: Date, end: Date, fault: bool) returns (r: seq<Expense>)
      ensures user.None? || fault ==> r == []
      ensures user.Some? && !fault ==>
                && multiset(r) == multiset(RowsInRange(rows, user.value, start, end))
                && SortedBy(r, NewestFirst)
      ensures forall e :: e in r <==>
                user.Some? && !fault && e in rows && e.row.userId == user.value
                && OnOrBefore(start, e.row.date) && OnOrBefore(e.row.date, end)
    {
      if user.None? || fault {
        return [];
      }
      r := SortBy(RowsInRange(rows, user.value, start, end), NewestFirst);
      assert forall e :: e in r <==> e in multiset(r);
    }

    /** `getFutureExpenses(months)`: the user's rows from today to the day
        `months` months on (moved with `setMonth`), oldest first. */
    method GetFutureExpenses(user: Option<UserId>, now: DateTime, months: int, fault: bool)
      returns (r: Result<seq<Expense>>)
      requires ValidDateTime(now)
      ensures user.None? ==> r == Err(NotAuthenticated)
      ensures user.Some? && fault ==> r == Err(StoreError)
      ensures user.Some? && !fault ==>
                && r.Ok?
                && multiset(r.value) == multiset(RowsInRange(rows, user.value, now.date, ShiftMonths(now.date, months)))
                && SortedBy(r.value, OldestFirst)
    {
      if user.None? {
        return Err(NotAuthenticated);
      }
      var futureDate := new JsDate(now);
      futureDate.SetMonth(now.date.month0 + months);
      if fault {
        return Err(StoreError);
      }
      r := Ok(SortBy(RowsInRange(rows, user.value, now.date, futureDate.Value().date), OldestFirst));
    }

    /** `deleteExpense(id, deleteAll)`: a missing id raises "Despesa não
        encontrada" and changes nothing; with `deleteAll` and a group id the
        whole group is deleted, otherwise the one row. */
    method DeleteExpense(id: int, deleteAll: bool, fault: bool) returns (o: Outcome)
      requires Valid()
      modifies this
      ensures Valid() && nextId == old(nextId)
      ensures FindById(old(rows), id).None? ==> o == Fail(NotFound) && rows == old(rows)
      ensures FindById(old(rows), id).Some? && fault ==> o == Fail(StoreError) && rows == old(rows)
      ensures FindById(old(rows), id).Some? && !fault ==>
                var e := FindById(old(rows), id).value;
                o == Pass &&
                rows == if deleteAll && e.row.installmentGroupId.Some? && e.row.installmentGroupId.value != ""
                        then WithoutGroup(old(rows), e.row.installmentGroupId.value)
                        else WithoutId(old(rows), id)
    {
      var expense := FindById(rows, id);
      if expense.None? {
        return Fail(NotFound);
      }
      if fault {
        return Fail(StoreError);
      }
      var g := expense.value.row.installmentGroupId;
      if deleteAll && g.Some? && g.value != "" {
        rows := WithoutGroup(rows, g.value);
      } else {
        rows := WithoutId(rows, id);
      }
      o := Pass;
    }

    /** `getMonthsRange(range)`: the user's rows of the window, newest first,
        grouped into `range` month buckets by the `MonthBuckets` loop. */
    method GetMonthsRange(user: Option<UserId>, now: DateTime, range: int, fault: bool)
      returns (r: Result<seq<MonthData<Expense>>>)
      requires Valid() && ValidDateTime(now)
      ensures user.None? ==> r == Err(NotAuthenticated)
      ensures user.Some? && fault ==> r == Err(StoreError)
      ensures user.Some? && !fault ==>
                r.Ok? && MonthsOf(r.value, now.date, range, OwnedBy(rows, ExpenseOwner, user.value), ExpenseDate, ExpenseAmount)
    {
      if user.None? {
        return Err(NotAuthenticated);
      }
      var startDate := WindowStart(now.date, range);
      var endDate := WindowEnd(now.date);
      if fault {
        return Err(StoreError);
      }
      var all := OwnedBy(rows, ExpenseOwner, user.value);
      var fetched := SortBy(RowsInRange(rows, user.value, startDate, endDate), NewestFirst);
      assert forall e :: e in fetched <==> e in multiset(fetched);
      var months := MonthsRange(now, range, fetched, ExpenseDate, ExpenseAmount);
      WindowMonths(now.date, range, months, all, fetched, ExpenseDate, ExpenseAmount);
      r := Ok(months);
    }
  }
}
