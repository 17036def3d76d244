/** One ledger line: the four-field holder `Record` of record.py. */
module Records {
  import opened Results
  import opened Calendar

  /** The two recognised categories: income and expense. */
  const Income: string := "收入"
  const Expense: string := "支出"

  lemma CategoriesDiffer()
    ensures Income != Expense
  {
    assert Income[0] != Expense[0];
  }

  predicate Recognised(category: string)
  {
    category == Income || category == Expense
  }

  /** Python truthiness of an optional category argument: neither `None` nor the empty string. */
  predicate Given(category: Option<string>)
  {
    category.Some? && category.value != ""
  }

  /**
   * A record as the store keeps it. The date is a `datetime.date`, hence valid;
   * the category and the amount are whatever the record was built with (records
   * read back from the file are not re-validated).
   */
  datatype Record = Record(date: CalDate, category: string, amount: real, description: string)
}
