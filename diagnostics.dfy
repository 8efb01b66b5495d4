/** The budget panel: the fixed 50/30/20 split of income into category
    groups, what each group has spent of its share, and the panel's
    open/closed flags per group. */
module FinancialDiagnostics {
  import opened Outcomes
  import opened Calendar
  import opened Seqs
  import opened Expenses
  import opened Incomes
  import opened MonthWindows

  /** A group of expense categories entitled to `percentage` percent of income. */
  datatype CategoryGroup = CategoryGroup(name: string, percentage: real, categories: seq<string>)

  const Essentials := CategoryGroup("Despesas Obrigatórias", 50.0, ["Moradia", "Transporte", "Saúde", "Educação"])
  const DayToDay := CategoryGroup("Despesas do Dia a Dia", 30.0, ["Lazer", "Alimentação"])
  const Savings := CategoryGroup("Reserva", 20.0, ["Investimentos"])

  /** The three groups, in display order. */
  const CategoryGroups: seq<CategoryGroup> := [Essentials, DayToDay, Savings]

  /** What a group card shows. */
  datatype GroupMetrics = GroupMetrics(ideal: real, spent: real, remaining: real, percentage: real)

  /** `getGroupExpenses`: the expenses whose category is one of `categories`, in order. */
  function GroupExpenses(expenses: seq<Expense>, categories: seq<string>): (r: seq<Expense>)
    ensures forall e :: e in r <==> e in expenses && e.row.category in categories
    ensures |r| <= |expenses|
  {
    if expenses == [] then []
    else
      (if expenses[0].row.category in categories then [expenses[0]] else []) + GroupExpenses(expenses[1..], categories)
  }

  /** The group filter keeps each expense at most as often as the list holds it. */
  lemma {:induction false} GroupExpensesSubMultiset(expenses: seq<Expense>, categories: seq<string>)
    ensures multiset(GroupExpenses(expenses, categories)) <= multiset(expenses)
  {
    if expenses != [] {
      assert expenses == [expenses[0]] + expenses[1..];
      GroupExpensesSubMultiset(expenses[1..], categories);
    }
  }

  /** The group filter distributes over concatenation, so the expenses it
      keeps stay in their original relative order. */
  lemma {:induction false} GroupExpensesConcat(a: seq<Expense>, b: seq<Expense>, categories: seq<string>)
    ensures GroupExpenses(a + b, categories) == GroupExpenses(a, categories) + GroupExpenses(b, categories)
  {
    if a == [] {
      assert a + b == b;
    } else {
      assert (a + b)[1..] == a[1..] + b;
      GroupExpensesConcat(a[1..], b, categories);
    }
  }

  /** `calculateGroupMetrics`: the group's share of income, what its
      categories spent, what is left, and the share used in percent (0 when
      the share is not positive, so nothing is divided by zero). */
  function CalculateGroupMetrics(group: CategoryGroup, totalIncome: real, expenses: seq<Expense>): (m: GroupMetrics)
    ensures m.ideal * 100.0 == totalIncome * group.percentage
    ensures m.spent == Sum(GroupExpenses(expenses, group.categories), ExpenseAmount)
    ensures m.remaining + m.spent == m.ideal
    ensures m.ideal <= 0.0 ==> m.percentage == 0.0
    ensures m.ideal > 0.0 ==> m.percentage * m.ideal == m.spent * 100.0
  {
    var ideal := (totalIncome * group.percentage) / 100.0;
    var spent := Sum(GroupExpenses(expenses, group.categories), ExpenseAmount);
    var remaining := ideal - spent;
    var percentage := if ideal > 0.0 then (spent / ideal) * 100.0 else 0.0;
    assert ideal > 0.0 ==> (spent / ideal) * ideal == spent;
    GroupMetrics(ideal, spent, remaining, percentage)
  }

  /** `isOverBudget`. */
  predicate IsOverBudget(m: GroupMetrics) {
    m.remaining < 0.0
  }

  /** A group is over budget exactly when it spent more than its share, and
      then (with a positive share) it has used more than 100 percent. */
  lemma OverBudgetMeansOverspent(group: CategoryGroup, totalIncome: real, expenses: seq<Expense>)
    ensures var m := CalculateGroupMetrics(group, totalIncome, expenses);
            && (IsOverBudget(m) <==> m.spent > m.ideal)
            && (m.ideal > 0.0 ==> (IsOverBudget(m) <==> m.percentage > 100.0))
  {
    var m := CalculateGroupMetrics(group, totalIncome, expenses);
    if m.ideal > 0.0 {
      UsageAboveHundred(m.percentage, m.ideal, m.spent);
    }
  }

  /** With a positive share `ideal`, a usage of `p` percent of it is above
      100 exactly when the spending is above the share. */
  lemma UsageAboveHundred(p: real, ideal: real, spent: real)
    requires ideal > 0.0 && p * ideal == spent * 100.0
    ensures p > 100.0 <==> spent > ideal
  {
    assert (p - 100.0) * ideal == (spent - ideal) * 100.0;
    if p > 100.0 {
      assert (p - 100.0) * ideal > 0.0;
    } else {
      assert (100.0 - p) * ideal >= 0.0;
    }
  }

  /** The value given to the progress bars: the percentage, capped at 100. */
  function ProgressValue(percentage: real): (v: real)
    ensures v <= 100.0 && v <= percentage
    ensures v == percentage || v == 100.0
  {
    if percentage > 100.0 then 100.0 else percentage
  }

  /** Whether a group's card is open; a missing key reads as closed. */
  predicate IsOpen(open: map<string, bool>, g: string) {
    g in open && open[g]
  }

  /** `toggleGroup(g)`: a new map with `g`'s flag negated. */
  function ToggleGroup(open: map<string, bool>, g: string): (r: map<string, bool>)
    ensures r.Keys == open.Keys + {g}
    ensures IsOpen(r, g) == !IsOpen(open, g)
    ensures forall k :: k in open && k != g ==> r[k] == open[k]
  {
    open[g := !IsOpen(open, g)]
  }

  /** Toggling twice restores every flag, and the map itself when `g` had a key. */
  lemma ToggleTwice(open: map<string, bool>, g: string)
    ensures forall k :: IsOpen(ToggleGroup(ToggleGroup(open, g), g), k) == IsOpen(open, k)
    ensures g in open ==> ToggleGroup(ToggleGroup(open, g), g) == open
    ensures g !in open ==> ToggleGroup(ToggleGroup(open, g), g) == open[g := false]
  {
  }

  /** The sum of a list of reals. */
  function Total(xs: seq<real>): real {
    if xs == [] then 0.0 else xs[0] + Total(xs[1..])
  }

  /** The groups' percentages add up to 100 and no category is in two groups. */
  lemma GroupTable()
    ensures Total(seq(|CategoryGroups|, i requires 0 <= i < |CategoryGroups| => CategoryGroups[i].percentage)) == 100.0
    ensures forall i, j, c :: 0 <= i < j < |CategoryGroups| && c in CategoryGroups[i].categories ==> c !in CategoryGroups[j].categories
  {
    var ps := seq(|CategoryGroups|, i requires 0 <= i < |CategoryGroups| => CategoryGroups[i].percentage);
    assert ps == [50.0, 30.0, 20.0];
    assert Total(ps) == 50.0 + Total([30.0, 20.0]);
  }

  /** The spending of two category lists with nothing in common adds up to
      the spending of both together. */
  lemma {:induction false} SpentSplits(expenses: seq<Expense>, a: seq<string>, b: seq<string>)
    requires forall c :: c in a ==> c !in b
    ensures Sum(GroupExpenses(expenses, a + b), ExpenseAmount)
            == Sum(GroupExpenses(expenses, a), ExpenseAmount) + Sum(GroupExpenses(expenses, b), ExpenseAmount)
  {
    if expenses != [] {
      var x, t := expenses[0], expenses[1..];
      SpentSplits(t, a, b);
      var ha := if x.row.category in a then [x] else [];
      var hb := if x.row.category in b then [x] else [];
      var hab := if x.row.category in a + b then [x] else [];
      SumConcat(ha, GroupExpenses(t, a), ExpenseAmount);
      SumConcat(hb, GroupExpenses(t, b), ExpenseAmount);
      SumConcat(hab, GroupExpenses(t, a + b), ExpenseAmount);
      assert Sum([x], ExpenseAmount) == ExpenseAmount(x) + Sum([], ExpenseAmount);
    }
  }

  /** The categories of all groups together. */
  const GroupedCategories: seq<string> := Essentials.categories + DayToDay.categories + Savings.categories

  /** The ideals of the three groups add up to the income, and their spending
      adds up to what was spent in grouped categories. */
  lemma GroupsCoverIncomeAndSpending(totalIncome: real, expenses: seq<Expense>)
    ensures var m1 := CalculateGroupMetrics(Essentials, totalIncome, expenses);
            var m2 := CalculateGroupMetrics(DayToDay, totalIncome, expenses);
            var m3 := CalculateGroupMetrics(Savings, totalIncome, expenses);
            && m1.ideal + m2.ideal + m3.ideal == totalIncome
            && m1.spent + m2.spent + m3.spent == Sum(GroupExpenses(expenses, GroupedCategories), ExpenseAmount)
  {
    GroupsDisjoint();
    SpentSplits(expenses, Essentials.categories, DayToDay.categories);
    SpentSplits(expenses, Essentials.categories + DayToDay.categories, Savings.categories);
  }

  /** The groups' category lists have nothing in common. */
  lemma GroupsDisjoint()
    ensures forall c :: c in Essentials.categories ==> c !in DayToDay.categories
    ensures forall c :: c in Essentials.categories + DayToDay.categories ==> c !in Savings.categories
  {
  }

  /** 'Compras' and 'Outros' belong to no group, and 'Investimentos', the
      only category of 'Reserva', is not a category of the expense form. */
  lemma UngroupedCategories()
    ensures "Compras" in Categories && "Compras" !in GroupedCategories
    ensures "Outros" in Categories && "Outros" !in GroupedCategories
    ensures forall c :: c in Savings.categories ==> c !in Categories
  {
  }

  /** The savings group's category is one the income form offers: money put
      into investments shows up as income, never as a spent expense. */
  lemma SavingsIsIncomeCategory()
    ensures forall c :: c in Savings.categories ==> c in IncomeCategories && c !in Categories
  {
    UngroupedCategories();
  }

  /** Expenses entered through the form never count toward the savings share. */
  lemma SavingsNeverSpent(totalIncome: real, expenses: seq<Expense>)
    requires forall e :: e in expenses ==> e.row.category in Categories
    ensures CalculateGroupMetrics(Savings, totalIncome, expenses).spent == 0.0
  {
    UngroupedCategories();
    NoneInGroup(expenses, Savings.categories);
  }

  /** A group none of whose categories occurs spends nothing. */
  lemma {:induction false} NoneInGroup(expenses: seq<Expense>, categories: seq<string>)
    requires forall e :: e in expenses ==> e.row.category !in categories
    ensures GroupExpenses(expenses, categories) == []
  {
    if expenses != [] {
      assert expenses[0] in expenses;
      NoneInGroup(expenses[1..], categories);
    }
  }

  /** With non-negative amounts a group never spends a negative amount. */
  lemma SpentNonNegative(group: CategoryGroup, totalIncome: real, expenses: seq<Expense>)
    requires forall e :: e in expenses ==> e.row.amount >= 0.0
    ensures CalculateGroupMetrics(group, totalIncome, expenses).spent >= 0.0
  {
    SumNonNegative(GroupExpenses(expenses, group.categories), ExpenseAmount);
  }

  /** The panel's state: the month's income total, its expenses and the open cards. */
  class Panel {
    var totalIncome: real
    var expenses: seq<Expense>
    var isLoading: bool
    var openGroups: map<string, bool>

    constructor ()
      ensures totalIncome == 0.0 && expenses == [] && isLoading && openGroups == map[]
    {
      totalIncome, expenses, isLoading, openGroups := 0.0, [], true, map[];
    }

    /** `fetchData`: the month window's expenses and income total. The
        utilities swallow their errors, so a failed fetch shows an empty month. */
    method FetchData(expenseStore: ExpenseStore, incomeStore: IncomeStore, user: Option<string>,
                     currentDate: DateTime, expenseFault: bool, incomeFault: bool)
      requires ValidDateTime(currentDate)
      modifies this
      ensures !isLoading && openGroups == old(openGroups)
      ensures var w := WindowOf(currentDate);
              && (user.None? || expenseFault ==> expenses == [])
              && (user.Some? && !expenseFault ==>
                    && multiset(expenses) == multiset(Expenses.RowsInRange(expenseStore.rows, user.value, w.start.date, w.end.date))
                    && SortedBy(expenses, Expenses.NewestFirst))
              && (user.None? || incomeFault ==> totalIncome == 0.0)
              && (user.Some? && !incomeFault ==>
                    totalIncome == Sum(Incomes.RowsInRange(incomeStore.rows, user.value, w.start.date, w.end.date), IncomeAmount))
    {
      var w := MonthWindow(currentDate);
      var expensesData := expenseStore.GetExpenses(user, w.start.date, w.end.date, expenseFault);
      var incomesData := incomeStore.GetIncomes(user, w.start.date, w.end.date, incomeFault);
      expenses := expensesData;
      totalIncome := Sum(incomesData, IncomeAmount);
      if user.Some? && !incomeFault {
        SumPermutation(incomesData, Incomes.RowsInRange(incomeStore.rows, user.value, w.start.date, w.end.date), IncomeAmount);
      }
      isLoading := false;
    }

    /** The click handler of a group card. */
    method Toggle(g: string)
      modifies this
      ensures openGroups == ToggleGroup(old(openGroups), g)
      ensures totalIncome == old(totalIncome) && expenses == old(expenses) && isLoading == old(isLoading)
    {
      openGroups := ToggleGroup(openGroups, g);
    }
  }
}
