/**
 * The aggregator of displayBalance: total income, total expenses and the net
 * balance over the loaded transactions.
 */
module Balance {
  import opened Decimal
  import opened Calendar
  import opened Codec
  import opened Query

  /** The sum of the positive amounts. */
  function IncomeTotal(ts: seq<Transaction>): real
    decreases |ts|
  {
    if ts == [] then 0.0
    else
      var last := ts[|ts| - 1];
      IncomeTotal(ts[..|ts| - 1]) + (if last.amount > 0.0 then last.amount else 0.0)
  }

  /** The sum of the magnitudes of the amounts that are not positive (a zero adds nothing). */
  function ExpenseTotal(ts: seq<Transaction>): real
    decreases |ts|
  {
    if ts == [] then 0.0
    else
      var last := ts[|ts| - 1];
      ExpenseTotal(ts[..|ts| - 1]) + (if last.amount > 0.0 then 0.0 else Abs(last.amount))
  }

  /** The plain sum of all amounts. */
  function AmountTotal(ts: seq<Transaction>): real
    decreases |ts|
  {
    if ts == [] then 0.0 else AmountTotal(ts[..|ts| - 1]) + ts[|ts| - 1].amount
  }

  /** The loop of displayBalance, which prints the three values it returns here. */
  method ComputeBalance(transactions: seq<Transaction>) returns (income: real, expenses: real, net: real)
    ensures income == IncomeTotal(transactions) && expenses == ExpenseTotal(transactions)
    ensures net == AmountTotal(transactions)
  {
    income, expenses := 0.0, 0.0;
    var i := 0;
    while i < |transactions|
      invariant 0 <= i <= |transactions|
      invariant income == IncomeTotal(transactions[..i])
      invariant expenses == ExpenseTotal(transactions[..i])
    {
      var t := transactions[i];
      assert transactions[..i + 1][..i] == transactions[..i];
      if t.amount > 0.0 {
        income := income + t.amount;
      } else {
        expenses := expenses + Abs(t.amount);
      }
      i := i + 1;
    }
    assert transactions[..i] == transactions;
    net := income - expenses;
    NetIsTotal(transactions);
  }

  /** The net balance is the sum of all amounts. */
  lemma {:induction false} NetIsTotal(ts: seq<Transaction>)
    ensures IncomeTotal(ts) - ExpenseTotal(ts) == AmountTotal(ts)
    decreases |ts|
  {
    if ts != [] {
      NetIsTotal(ts[..|ts| - 1]);
    }
  }

  /** Neither total is ever negative. */
  lemma {:induction false} TotalsNonNegative(ts: seq<Transaction>)
    ensures IncomeTotal(ts) >= 0.0 && ExpenseTotal(ts) >= 0.0
    decreases |ts|
  {
    if ts != [] {
      TotalsNonNegative(ts[..|ts| - 1]);
    }
  }

  /** Total income is the sum over the INCOME listing. */
  lemma {:induction false} IncomeIsIncomeListing(ts: seq<Transaction>)
    ensures IncomeTotal(ts) == AmountTotal(Select(ts, ByType(Income)))
    decreases |ts|
  {
    if ts != [] {
      var init, last := ts[..|ts| - 1], ts[|ts| - 1];
      IncomeIsIncomeListing(init);
      if last.amount > 0.0 {
        assert Select(ts, ByType(Income)) == Select(init, ByType(Income)) + [last];
        AmountTotalSnoc(Select(init, ByType(Income)), last);
      } else {
        assert Select(ts, ByType(Income)) == Select(init, ByType(Income));
      }
    }
  }

  /** Total expenses are minus the sum over the EXPENSE listing: zero amounts add nothing. */
  lemma {:induction false} ExpensesAreExpenseListing(ts: seq<Transaction>)
    ensures ExpenseTotal(ts) == -AmountTotal(Select(ts, ByType(Expense)))
    decreases |ts|
  {
    if ts != [] {
      var init, last := ts[..|ts| - 1], ts[|ts| - 1];
      ExpensesAreExpenseListing(init);
      if last.amount < 0.0 {
        assert Select(ts, ByType(Expense)) == Select(init, ByType(Expense)) + [last];
        AmountTotalSnoc(Select(init, ByType(Expense)), last);
      } else {
        assert Select(ts, ByType(Expense)) == Select(init, ByType(Expense));
      }
    }
  }

  lemma {:induction false} AmountTotalSnoc(ts: seq<Transaction>, t: Transaction)
    ensures AmountTotal(ts + [t]) == AmountTotal(ts) + t.amount
  {
    assert (ts + [t])[..|ts|] == ts;
  }

  /** The totals of two runs of transactions add up. */
  lemma {:induction false} TotalsAppend(a: seq<Transaction>, b: seq<Transaction>)
    ensures IncomeTotal(a + b) == IncomeTotal(a) + IncomeTotal(b)
    ensures ExpenseTotal(a + b) == ExpenseTotal(a) + ExpenseTotal(b)
    decreases |b|
  {
    if b == [] {
      assert a + b == a;
    } else {
      var b' := b[..|b| - 1];
      assert (a + b)[..|a + b| - 1] == a + b';
      TotalsAppend(a, b');
    }
  }

  /** No transactions: income, expenses and net are all zero. */
  lemma EmptyBalance()
    ensures IncomeTotal([]) == 0.0 && ExpenseTotal([]) == 0.0 && AmountTotal([]) == 0.0
  {
  }

  /** 100.00 of income and expenses of 40.00 and 10.50 leave a net balance of 49.50. */
  lemma BalanceExample(date: Date, time: Time)
    ensures var ts := [Transaction(date, time, "Salary", "Acme", 100.0),
                       Transaction(date, time, "Groceries", "Store", -40.0),
                       Transaction(date, time, "Coffee", "Cafe", -10.5)];
            IncomeTotal(ts) == 100.0 && ExpenseTotal(ts) == 50.5 && IncomeTotal(ts) - ExpenseTotal(ts) == 49.5
  {
    var ts := [Transaction(date, time, "Salary", "Acme", 100.0),
               Transaction(date, time, "Groceries", "Store", -40.0),
               Transaction(date, time, "Coffee", "Cafe", -10.5)];
    assert ts[..2][..1] == ts[..1] && ts[..1][..0] == [];
    assert IncomeTotal(ts[..1]) == 100.0 && ExpenseTotal(ts[..1]) == 0.0;
    assert IncomeTotal(ts[..2]) == 100.0 && ExpenseTotal(ts[..2]) == 40.0;
  }
}
