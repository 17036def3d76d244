/**
 * Worked cases of the ledger's behaviour, derived from the general
 * lemmas: a total over one income and one expense, a two-sided date query, a
 * rejected add, and a load that skips an undated object.
 */
module Scenarios {
  import opened Results
  import opened Calendar
  import opened Records
  import opened Selection
  import opened Ledger
  import opened Queries
  import opened Totals
  import opened Persistence
  import opened Sequences

  /** Income 500 and expense 200 total 300 overall and -200 for expenses alone. */
  lemma TotalOfIncomeAndExpense(salary: Record, rent: Record)
    requires salary.category == Income && salary.amount == 500.0
    requires rent.category == Expense && rent.amount == 200.0
    ensures Total([salary, rent], None) == 300.0
    ensures Total([salary, rent], Some(Expense)) == -200.0
  {
    CategoriesDiffer();
    var rs := [salary, rent];
    assert rs[..1] == [salary] && [salary][..0] == [];
    assert Contribution(salary, None) == 500.0 && Contribution(rent, None) == -200.0;
    assert Contribution(salary, Some(Expense)) == 0.0 && Contribution(rent, Some(Expense)) == -200.0;
    assert RunningTotal([salary], None) == 500.0;
    assert RunningTotal([salary], Some(Expense)) == 0.0;
    assert RunningTotal(rs, None) == 300.0;
    assert RunningTotal(rs, Some(Expense)) == -200.0;
    RunningTotalIsTotal(rs, None);
    RunningTotalIsTotal(rs, Some(Expense));
  }

  /** With one income and one expense recorded, a query by the income category returns just the income record. */
  lemma QueryByCategory(a: Account, income: Record, expense: Record)
    requires Consistent(a) && a.records == [income, expense]
    requires income.category == Income && expense.category == Expense
    ensures Query(a, None, None, Some(Income)) == Ok([income])
  {
    IncomeOfPair(income, expense);
    QueryWithoutBothBounds(a, None, None, Some(Income));
  }

  lemma IncomeOfPair(income: Record, expense: Record)
    requires income.category == Income && expense.category == Expense
    ensures Narrowed([income, expense], Some(Income)) == [income]
  {
    CategoriesDiffer();
    var c := InCategory(Income);
    assert Given(Some(Income)) && Recognised(Income) by {
      assert Income[0] != ' ';
    }
    PairParts(income, expense);
    assert Select([], c) == [];
    SelectSnoc([], income, c);
    assert !Matches(expense, c);
    SelectSnoc([income], expense, c);
  }

  /**
   * With an expense of 15 January and an income of 10 March, the query from
   * 1 February to 1 April returns only the March record.
   */
  lemma QueryFebruaryToApril(a: Account, rent: Record, salary: Record, from: CalDate, to: CalDate)
    requires Consistent(a) && a.records == [rent, salary]
    requires rent.date == Date(2024, 1, 15) && salary.date == Date(2024, 3, 10)
    requires from == Date(2024, 2, 1) && to == Date(2024, 4, 1)
    ensures Query(a, Some(from), Some(to), None) == Ok([salary])
  {
    var range := InRange(Some(from), Some(to));
    PairParts(rent, salary);
    assert Select([], range) == [];
    SelectSnoc([], rent, range);
    SelectSnoc([rent], salary, range);
    assert Select(a.records, range) == [salary];
    assert Query(a, Some(from), Some(to), None).Ok?;
    QueryBothBounds(a, from, to, None);
    SingletonMultiset(Query(a, Some(from), Some(to), None).value, salary);
  }

  /** An add with an unrecognised category or a non-positive amount is refused and leaves the account as it was. */
  lemma RejectedAdds(a: Account, date: CalDate)
    ensures AddRecord(a, date, "Gift", 10.0, "") == AddOutcome(a, Some(InvalidCategory))
    ensures AddRecord(a, date, Income, 0.0, "") == AddOutcome(a, Some(NonPositiveAmount))
    ensures AddRecord(a, date, Expense, -5.0, "") == AddOutcome(a, Some(NonPositiveAmount))
  {
    assert "Gift"[0] != Income[0] && "Gift"[0] != Expense[0];
  }

  /** A file with one well-formed object and one without a date loads exactly the one record. */
  lemma LoadSkipsUndated(r: Record, undated: StoredRecord)
    requires undated.date.None?
    ensures Load(Some([Encode(r), undated])) == [r]
  {
    var saved := Save([r]);
    assert saved == [Encode(r)];
    SaveLoad([r]);
    assert saved + [] == saved;
    DropUndated(saved, undated, []);
    assert saved + [undated] + [] == [Encode(r), undated];
  }

  lemma SingletonMultiset<T>(s: seq<T>, x: T)
    requires multiset(s) == multiset([x])
    ensures s == [x]
  {
    assert |s| == |multiset(s)| == 1;
    assert s[0] in multiset(s);
  }
}
