/** The dashboard page: the month shown, the income and expense totals of
    that month's window, the balance, month navigation and the refresh keys
    that make the lists reload after a form adds a record. */
module Dashboard {
  import opened Outcomes
  import opened Calendar
  import opened JsDates
  import opened Seqs
  import opened Expenses
  import opened Incomes
  import opened MonthWindows

  /** `totalIncome - totalExpenses`, the balance card's value. */
  function Balance(totalIncome: real, totalExpenses: real): (b: real)
    ensures b + totalExpenses == totalIncome
  {
    totalIncome - totalExpenses
  }

  /** The balance card shows the up arrow in green exactly when the balance is not negative. */
  predicate ShowsPositive(totalIncome: real, totalExpenses: real) {
    Balance(totalIncome, totalExpenses) >= 0.0
  }

  /** The balance is shown as positive exactly when income covers expenses. */
  lemma PositiveBalance(totalIncome: real, totalExpenses: real)
    ensures ShowsPositive(totalIncome, totalExpenses) <==> totalIncome >= totalExpenses
    ensures !ShowsPositive(totalIncome, totalExpenses) <==> totalExpenses > totalIncome
  {
  }

  /** The page's state. */
  class Home {
    var currentDate: DateTime
    var totalExpenses: real
    var totalIncome: real
    var isLoading: bool
    var expenseKey: int
    var incomeKey: int

    ghost predicate Valid()
      reads this
    {
      ValidDateTime(currentDate)
    }

    /** The initial state: today's date, zero totals, loading, keys at 0. */
    constructor (now: DateTime)
      requires ValidDateTime(now)
      ensures Valid() && currentDate == now
      ensures totalExpenses == 0.0 && totalIncome == 0.0 && isLoading
      ensures expenseKey == 0 && incomeKey == 0
    {
      currentDate, totalExpenses, totalIncome, isLoading := now, 0.0, 0.0, true;
      expenseKey, incomeKey := 0, 0;
    }

    /** `fetchTotals`: the sums of the amounts fetched for the month window.
        Both utilities turn every failure into an empty list, so a failure
        shows as a total of 0 and the `catch` branch is never taken. */
    method FetchTotals(expenseStore: ExpenseStore, incomeStore: IncomeStore, user: Option<string>,
                       expenseFault: bool, incomeFault: bool)
      requires Valid()
      modifies this
      ensures Valid() && !isLoading
      ensures currentDate == old(currentDate) && expenseKey == old(expenseKey) && incomeKey == old(incomeKey)
      ensures var w := WindowOf(currentDate);
              && (user.None? || expenseFault ==> totalExpenses == 0.0)
              && (user.Some? && !expenseFault ==>
                    totalExpenses == Sum(Expenses.RowsInRange(expenseStore.rows, user.value, w.start.date, w.end.date), ExpenseAmount))
              && (user.None? || incomeFault ==> totalIncome == 0.0)
              && (user.Some? && !incomeFault ==>
                    totalIncome == Sum(Incomes.RowsInRange(incomeStore.rows, user.value, w.start.date, w.end.date), IncomeAmount))
    {
      var w := MonthWindow(currentDate);
      var expenses := expenseStore.GetExpenses(user, w.start.date, w.end.date, expenseFault);
      var incomes := incomeStore.GetIncomes(user, w.start.date, w.end.date, incomeFault);
      if user.Some? && !expenseFault {
        SumPermutation(expenses, Expenses.RowsInRange(expenseStore.rows, user.value, w.start.date, w.end.date), ExpenseAmount);
      }
      if user.Some? && !incomeFault {
        SumPermutation(incomes, Incomes.RowsInRange(incomeStore.rows, user.value, w.start.date, w.end.date), IncomeAmount);
      }
      totalExpenses := Sum(expenses, ExpenseAmount);
      totalIncome := Sum(incomes, IncomeAmount);
      isLoading := false;
    }

    /** `handlePreviousMonth`: a copy of the date moved back with `setMonth`. */
    method HandlePreviousMonth()
      requires Valid()
      modifies this
      ensures Valid()
      ensures currentDate == DateTime(ShiftMonths(old(currentDate).date, -1), old(currentDate).msOfDay)
      ensures totalExpenses == old(totalExpenses) && totalIncome == old(totalIncome)
      ensures expenseKey == old(expenseKey) && incomeKey == old(incomeKey) && isLoading == old(isLoading)
    {
      var newDate := new JsDate(currentDate);
      newDate.SetMonth(currentDate.date.month0 - 1);
      currentDate := newDate.Value();
    }

    /** `handleNextMonth`: a copy of the date moved on with `setMonth`. */
    method HandleNextMonth()
      requires Valid()
      modifies this
      ensures Valid()
      ensures currentDate == DateTime(ShiftMonths(old(currentDate).date, 1), old(currentDate).msOfDay)
      ensures totalExpenses == old(totalExpenses) && totalIncome == old(totalIncome)
      ensures expenseKey == old(expenseKey) && incomeKey == old(incomeKey) && isLoading == old(isLoading)
    {
      var newDate := new JsDate(currentDate);
      newDate.SetMonth(currentDate.date.month0 + 1);
      currentDate := newDate.Value();
    }

    /** `handleExpenseAdded`: the expense list's refresh key goes up by one. */
    method HandleExpenseAdded()
      modifies this
      ensures expenseKey == old(expenseKey) + 1
      ensures incomeKey == old(incomeKey) && currentDate == old(currentDate)
      ensures totalExpenses == old(totalExpenses) && totalIncome == old(totalIncome) && isLoading == old(isLoading)
    {
      expenseKey := expenseKey + 1;
    }

    /** `handleIncomeAdded`: the income list's refresh key goes up by one. */
    method HandleIncomeAdded()
      modifies this
      ensures incomeKey == old(incomeKey) + 1
      ensures expenseKey == old(expenseKey) && currentDate == old(currentDate)
      ensures totalExpenses == old(totalExpenses) && totalIncome == old(totalIncome) && isLoading == old(isLoading)
    {
      incomeKey := incomeKey + 1;
    }
  }

  /** For a day of at most 28, "previous" and "next" move exactly one month
      with the year carried, keep the day, and undo each other. */
  lemma NavigationRoundTrip(d: Date)
    requires ValidDate(d) && d.day <= 28
    ensures MonthIndex(ShiftMonths(d, -1)) == MonthIndex(d) - 1 && ShiftMonths(d, -1).day == d.day
    ensures MonthIndex(ShiftMonths(d, 1)) == MonthIndex(d) + 1 && ShiftMonths(d, 1).day == d.day
    ensures ShiftMonths(ShiftMonths(d, -1), 1) == d
    ensures ShiftMonths(ShiftMonths(d, 1), -1) == d
  {
    ShiftMonthsSmallDay(d, -1);
    ShiftMonthsSmallDay(d, 1);
    ShiftMonthsRoundTrip(d, -1);
    ShiftMonthsRoundTrip(d, 1);
  }

  /** On 2024-03-31 "previous" lands on 2024-03-02, still in March, while a
      clamped step would reach 2024-02-29. */
  lemma PreviousMonthStuck()
    ensures ShiftMonths(Date(2024, 2, 31), -1) == Date(2024, 2, 2)
    ensures AddMonthsClamped(Date(2024, 2, 31), -1) == Date(2024, 1, 29)
  {
    ShiftMonthsSkipsFebruary();
  }

  /** A clamped navigation step always moves exactly one month, whatever the day. */
  lemma ClampedNavigation(d: Date)
    requires ValidDate(d)
    ensures MonthIndex(AddMonthsClamped(d, -1)) == MonthIndex(d) - 1
    ensures MonthIndex(AddMonthsClamped(d, 1)) == MonthIndex(d) + 1
  {
  }
}
