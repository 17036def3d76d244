/**
 * The account's in-memory state (account.py, class `Account`): the ordered
 * record list and the two indexes derived from it, the index build run after
 * loading, and `add_record`.
 */
module Ledger {
  import opened Results
  import opened Calendar
  import opened Records
  import opened Selection

  /**
   * `records` is the source of truth. `dateIndex` maps a "YYYY-MM" key to that
   * month's records; `categoryIndex` maps the two recognised categories to
   * their records. Both keep insertion order.
   */
  datatype Account = Account(
    records: seq<Record>,
    dateIndex: map<YearMonth, seq<Record>>,
    categoryIndex: map<string, seq<Record>>)

  /** The month keys the records fall into. */
  function MonthsOf(rs: seq<Record>): set<YearMonth>
  {
    set r | r in rs :: MonthOf(r.date)
  }

  /**
   * The indexes are what a replay of the record list gives: a month bucket for
   * each month some record falls into, holding that month's records in list
   * order, and exactly the two recognised category buckets, each holding that
   * category's records in list order. Records of any other category are in no
   * category bucket.
   */
  predicate Consistent(a: Account)
  {
    DateIndexed(a.records, a.dateIndex) && CategoryIndexed(a.records, a.categoryIndex)
  }

  predicate DateIndexed(rs: seq<Record>, dateIndex: map<YearMonth, seq<Record>>)
  {
    && dateIndex.Keys == MonthsOf(rs)
    && forall k | k in dateIndex :: dateIndex[k] == Select(rs, InMonth(k))
  }

  predicate CategoryIndexed(rs: seq<Record>, categoryIndex: map<string, seq<Record>>)
  {
    && categoryIndex.Keys == {Income, Expense}
    && categoryIndex[Income] == Select(rs, InCategory(Income))
    && categoryIndex[Expense] == Select(rs, InCategory(Expense))
  }

  /** The state `_build_indexes` starts from: no month buckets and two empty category buckets. */
  function Empty(): (a: Account)
    ensures a.records == []
    ensures Consistent(a)
  {
    Account([], map[], map[Income := [], Expense := []])
  }

  /**
   * The incremental step shared by the index build and `add_record`: append the
   * record, append it to its month bucket (creating the bucket when absent) and
   * to its category bucket when that bucket exists.
   */
  function IndexRecord(a: Account, r: Record): (b: Account)
    ensures b.records == a.records + [r]
    ensures Consistent(a) ==> Consistent(b)
  {
    var k := MonthOf(r.date);
    var bucket := if k in a.dateIndex then a.dateIndex[k] else [];
    var categoryIndex :=
      if r.category in a.categoryIndex
      then a.categoryIndex[r.category := a.categoryIndex[r.category] + [r]]
      else a.categoryIndex;
    var b := Account(a.records + [r], a.dateIndex[k := bucket + [r]], categoryIndex);
    if Consistent(a) then
      IndexRecordPreserves(a, r, b);
      b
    else
      b
  }

  lemma IndexRecordPreserves(a: Account, r: Record, b: Account)
    requires Consistent(a)
    requires b.records == a.records + [r]
    requires var k := MonthOf(r.date);
             b.dateIndex == a.dateIndex[k := (if k in a.dateIndex then a.dateIndex[k] else []) + [r]]
    requires b.categoryIndex ==
               if r.category in a.categoryIndex
               then a.categoryIndex[r.category := a.categoryIndex[r.category] + [r]]
               else a.categoryIndex
    ensures Consistent(b)
  {
    DateIndexStep(a.records, a.dateIndex, r, b.dateIndex);
    CategoryIndexStep(a.records, a.categoryIndex, r, b.categoryIndex);
  }

  lemma DateIndexStep(rs: seq<Record>, dateIndex: map<YearMonth, seq<Record>>, r: Record, next: map<YearMonth, seq<Record>>)
    requires DateIndexed(rs, dateIndex)
    requires var k := MonthOf(r.date);
             next == dateIndex[k := (if k in dateIndex then dateIndex[k] else []) + [r]]
    ensures DateIndexed(rs + [r], next)
  {
    MonthsOfSnoc(rs, r);
    forall j | j in next
      ensures next[j] == Select(rs + [r], InMonth(j))
    {
      MonthBucketStep(rs, dateIndex, r, j);
    }
  }

  lemma CategoryIndexStep(rs: seq<Record>, categoryIndex: map<string, seq<Record>>, r: Record, next: map<string, seq<Record>>)
    requires CategoryIndexed(rs, categoryIndex)
    requires next == if r.category in categoryIndex
                     then categoryIndex[r.category := categoryIndex[r.category] + [r]]
                     else categoryIndex
    ensures CategoryIndexed(rs + [r], next)
  {
    CategoriesDiffer();
    SelectSnoc(rs, r, InCategory(Income));
    SelectSnoc(rs, r, InCategory(Expense));
  }

  lemma MonthsOfSnoc(rs: seq<Record>, r: Record)
    ensures MonthsOf(rs + [r]) == MonthsOf(rs) + {MonthOf(r.date)}
  {
    forall k | k in MonthsOf(rs + [r])
      ensures k in MonthsOf(rs) + {MonthOf(r.date)}
    {
      var x :| x in rs + [r] && MonthOf(x.date) == k;
    }
    forall k | k in MonthsOf(rs)
      ensures k in MonthsOf(rs + [r])
    {
      var x :| x in rs && MonthOf(x.date) == k;
      assert x in rs + [r];
    }
    assert r in rs + [r];
  }

  /** One month bucket after the incremental step. */
  lemma MonthBucketStep(rs: seq<Record>, dateIndex: map<YearMonth, seq<Record>>, r: Record, j: YearMonth)
    requires DateIndexed(rs, dateIndex)
    ensures var bucket := if j in dateIndex then dateIndex[j] else [];
            Select(rs + [r], InMonth(j)) == if j == MonthOf(r.date) then bucket + [r] else bucket
  {
    SelectSnoc(rs, r, InMonth(j));
    if j !in dateIndex {
      NoRecordsOfMonth(rs, j);
    }
  }

  lemma NoRecordsOfMonth(rs: seq<Record>, j: YearMonth)
    requires j !in MonthsOf(rs)
    ensures Select(rs, InMonth(j)) == []
  {
    forall x | x in rs
      ensures !Matches(x, InMonth(j))
    {
      assert MonthOf(x.date) in MonthsOf(rs);
    }
    SelectNone(rs, InMonth(j));
  }

  /**
   * `_build_indexes`: replay the record list front to back through the
   * incremental step. The result carries the list unchanged and consistent indexes.
   */
  function BuildIndexes(rs: seq<Record>): (a: Account)
    ensures a.records == rs
    ensures Consistent(a)
  {
    if rs == [] then Empty()
    else
      var init, last := rs[..|rs| - 1], rs[|rs| - 1];
      assert rs == init + [last];
      IndexRecord(BuildIndexes(init), last)
  }

  /**
   * Where a record sits in consistent indexes: in the bucket of its own month,
   * and in a category bucket exactly when it is in the list with that bucket's
   * category, so a record of any other category is in no category bucket.
   */
  lemma IndexedRecord(a: Account, r: Record)
    requires Consistent(a)
    ensures r in a.records ==> MonthOf(r.date) in a.dateIndex && r in a.dateIndex[MonthOf(r.date)]
    ensures forall k | k in a.dateIndex :: r in a.dateIndex[k] <==> r in a.records && MonthOf(r.date) == k
    ensures forall c | c in a.categoryIndex :: r in a.categoryIndex[c] <==> r in a.records && r.category == c
    ensures (exists c | c in a.categoryIndex :: r in a.categoryIndex[c]) <==> r in a.records && Recognised(r.category)
  {
    if r in a.records {
      assert MonthOf(r.date) in MonthsOf(a.records);
    }
  }

  /** Consistent indexes are determined by the record list alone. */
  lemma ConsistentUnique(a: Account, b: Account)
    requires Consistent(a) && Consistent(b)
    requires a.records == b.records
    ensures a == b
  {
    assert a.dateIndex == b.dateIndex;
    assert a.categoryIndex == b.categoryIndex;
  }

  /** The `ValueError`s `add_record` raises. */
  datatype AddError = InvalidCategory | NonPositiveAmount

  /** The account after a call, with the error the call raised, if any. */
  datatype AddOutcome = AddOutcome(account: Account, error: Option<AddError>)

  /**
   * `add_record`: the category must be one of the two recognised ones (checked
   * first), then the amount must be positive; a failing check raises before
   * anything changes. Otherwise one record is appended and indexed. The full
   * save that follows is `Persistence.Save` of the new record list.
   */
  function AddRecord(a: Account, date: CalDate, category: string, amount: real, description: string): (out: AddOutcome)
    ensures out.error.Some? <==> !Recognised(category) || amount <= 0.0
    ensures out.error == Some(InvalidCategory) <==> !Recognised(category)
    ensures out.error.Some? ==> out.account == a
    ensures out.error.None? ==>
      && out.account.records == a.records + [Record(date, category, amount, description)]
      && MonthOf(date) in out.account.dateIndex
      && out.account.dateIndex[MonthOf(date)]
         == (if MonthOf(date) in a.dateIndex then a.dateIndex[MonthOf(date)] else [])
            + [Record(date, category, amount, description)]
      && (forall k | k in a.dateIndex && k != MonthOf(date) ::
            k in out.account.dateIndex && out.account.dateIndex[k] == a.dateIndex[k])
      && (category in a.categoryIndex ==>
            && category in out.account.categoryIndex
            && out.account.categoryIndex[category]
               == a.categoryIndex[category] + [Record(date, category, amount, description)])
      && (forall c | c in a.categoryIndex && c != category ::
            c in out.account.categoryIndex && out.account.categoryIndex[c] == a.categoryIndex[c])
    ensures Consistent(a) ==> Consistent(out.account)
  {
    if !Recognised(category) then AddOutcome(a, Some(InvalidCategory))
    else if amount <= 0.0 then AddOutcome(a, Some(NonPositiveAmount))
    else AddOutcome(IndexRecord(a, Record(date, category, amount, description)), None)
  }

  /** After a successful add, the indexes equal a full rebuild over the new record list. */
  lemma AddMatchesRebuild(a: Account, date: CalDate, category: string, amount: real, description: string)
    requires Consistent(a)
    requires AddRecord(a, date, category, amount, description).error.None?
    ensures AddRecord(a, date, category, amount, description).account
         == BuildIndexes(a.records + [Record(date, category, amount, description)])
  {
    var b := AddRecord(a, date, category, amount, description).account;
    ConsistentUnique(b, BuildIndexes(b.records));
  }
}
