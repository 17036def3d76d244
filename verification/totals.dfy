/** `Account.calculate_total` (account.py): the signed income-minus-expense sum. */
module Totals {
  import opened Results
  import opened Records
  import opened Selection
  import opened Sequences

  function SumAmounts(rs: seq<Record>): real
  {
    if rs == [] then 0.0 else SumAmounts(rs[..|rs| - 1]) + rs[|rs| - 1].amount
  }

  /** The records a total ranges over: all of them when no category is given, else those of exactly that category. */
  function InScope(rs: seq<Record>, category: Option<string>): seq<Record>
  {
    if Given(category) then Select(rs, InCategory(category.value)) else rs
  }

  /**
   * What `calculate_total` computes: the income amounts minus the expense
   * amounts of the records in scope. Records of any other category count for
   * nothing.
   */
  function Total(rs: seq<Record>, category: Option<string>): real
  {
    var scope := InScope(rs, category);
    SumAmounts(Select(scope, InCategory(Income))) - SumAmounts(Select(scope, InCategory(Expense)))
  }

  /**
   * The single pass of `calculate_total`: skip records of another category when
   * one is given, add income, subtract expense, ignore the rest.
   */
  method CalculateTotal(records: seq<Record>, category: Option<string>) returns (total: real)
    ensures total == Total(records, category)
  {
    total := 0.0;
    var i := 0;
    while i < |records|
      invariant 0 <= i <= |records|
      invariant total == RunningTotal(records[..i], category)
    {
      var r := records[i];
      assert records[..i + 1] == records[..i] + [r];
      if Given(category) && r.category != category.value {
      } else if r.category == Income {
        total := total + r.amount;
      } else if r.category == Expense {
        total := total - r.amount;
      }
      i := i + 1;
    }
    assert records[..|records|] == records;
    RunningTotalIsTotal(records, category);
  }

  /** The signed amount one record adds to a total. */
  function Contribution(r: Record, category: Option<string>): real
  {
    if Given(category) && r.category != category.value then 0.0
    else if r.category == Income then r.amount
    else if r.category == Expense then -r.amount
    else 0.0
  }

  /** The loop's accumulator after a prefix of the records. */
  function RunningTotal(rs: seq<Record>, category: Option<string>): real
  {
    if rs == [] then 0.0 else RunningTotal(rs[..|rs| - 1], category) + Contribution(rs[|rs| - 1], category)
  }

  lemma {:induction false} RunningTotalIsTotal(rs: seq<Record>, category: Option<string>)
    ensures RunningTotal(rs, category) == Total(rs, category)
    decreases |rs|
  {
    if rs != [] {
      var init, last := rs[..|rs| - 1], rs[|rs| - 1];
      assert rs == init + [last];
      RunningTotalIsTotal(init, category);
      TotalSnoc(init, last, category);
    }
  }

  lemma TotalSnoc(rs: seq<Record>, r: Record, category: Option<string>)
    ensures Total(rs + [r], category) == Total(rs, category) + Contribution(r, category)
  {
    var scope := InScope(rs, category);
    ScopeSnoc(rs, r, category);
    if !Given(category) || r.category == category.value {
      var income, expense := Select(scope, InCategory(Income)), Select(scope, InCategory(Expense));
      SelectSnoc(scope, r, InCategory(Income));
      SelectSnoc(scope, r, InCategory(Expense));
      if r.category == Income {
        SumSnoc(income, r);
        assert expense + [] == expense;
      } else if r.category == Expense {
        SumSnoc(expense, r);
        assert income + [] == income;
      } else {
        assert income + [] == income && expense + [] == expense;
      }
    }
  }

  /** One more record enters the scope exactly when no category is given or it has the given one. */
  lemma ScopeSnoc(rs: seq<Record>, r: Record, category: Option<string>)
    ensures InScope(rs + [r], category)
         == InScope(rs, category) + (if !Given(category) || r.category == category.value then [r] else [])
  {
    if Given(category) {
      SelectSnoc(rs, r, InCategory(category.value));
    }
  }

  lemma SumSnoc(rs: seq<Record>, r: Record)
    ensures SumAmounts(rs + [r]) == SumAmounts(rs) + r.amount
  {
    SnocParts(rs, r);
  }

  /** The overall total is the income total plus the (negative) expense total. */
  lemma TotalSplitsByCategory(rs: seq<Record>)
    ensures Total(rs, None) == Total(rs, Some(Income)) + Total(rs, Some(Expense))
  {
    var income, expense := Select(rs, InCategory(Income)), Select(rs, InCategory(Expense));
    SelectAll(income, InCategory(Income));
    SelectNone(income, InCategory(Expense));
    SelectAll(expense, InCategory(Expense));
    SelectNone(expense, InCategory(Income));
  }

  /** A given category other than the two recognised ones totals zero. */
  lemma TotalOfUnrecognisedCategory(rs: seq<Record>, category: string)
    requires category != "" && !Recognised(category)
    ensures Total(rs, Some(category)) == 0.0
  {
    var scope := Select(rs, InCategory(category));
    SelectNone(scope, InCategory(Income));
    SelectNone(scope, InCategory(Expense));
  }

  lemma {:induction false} SumOfPositive(rs: seq<Record>)
    requires forall r | r in rs :: r.amount > 0.0
    ensures SumAmounts(rs) >= 0.0
    ensures rs != [] ==> SumAmounts(rs) > 0.0
    decreases |rs|
  {
    if rs != [] {
      assert rs == rs[..|rs| - 1] + [rs[|rs| - 1]];
      SumOfPositive(rs[..|rs| - 1]);
    }
  }

  /**
   * When every amount is positive, as `add_record` ensures, the total of one
   * recognised category has that category's sign, and is nonzero exactly when
   * some record of that category exists.
   */
  lemma TotalSigns(rs: seq<Record>, category: string)
    requires Recognised(category)
    requires forall r | r in rs :: r.amount > 0.0
    ensures category == Income ==> Total(rs, Some(category)) >= 0.0
    ensures category == Expense ==> Total(rs, Some(category)) <= 0.0
    ensures Total(rs, Some(category)) != 0.0 <==> exists r | r in rs :: r.category == category
  {
    var scope := Select(rs, InCategory(category));
    var other := if category == Income then Expense else Income;
    SelectAll(scope, InCategory(category));
    SelectNone(scope, InCategory(other));
    assert Total(rs, Some(category)) == if category == Income then SumAmounts(scope) else -SumAmounts(scope);
    SumOfPositive(scope);
    assert scope != [] <==> exists r | r in rs :: r.category == category by {
      if scope != [] {
        assert scope[0] in scope;
      }
    }
  }

}
