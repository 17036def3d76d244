/**
 * `Account.query_records` (account.py): narrow by category through the
 * category index, translate a two-sided date range into the month buckets it
 * touches, then filter every candidate by the day-level bounds.
 */
module Queries {
  import opened Results
  import opened Calendar
  import opened Records
  import opened Selection
  import opened Ledger

  /** The month walk builds `date(year + 1, 1, 1)` after December, which raises for year 10000. */
  datatype QueryError = YearOutOfRange

  predicate Ascending(ks: seq<YearMonth>)
  {
    forall i, j | 0 <= i < j < |ks| :: MonthNumber(ks[i]) < MonthNumber(ks[j])
  }

  /**
   * The month walk: starting at `current`, while `current <= end` record
   * current's "YYYY-MM" key and move to the first day of the next month.
   * It yields every month from current's through end's, in calendar order,
   * and nothing when `current` is after `end`; it fails exactly when the walk
   * has to step past December 9999.
   */
  function MonthKeys(current: CalDate, end: CalDate): (r: Result<seq<YearMonth>, QueryError>)
    ensures r.Err? <==> AtOrBefore(current, end) && MonthOf(end) == YearMonth(MaxYear, 12)
    ensures r.Ok? ==> Ascending(r.value)
    ensures r.Ok? ==> forall k :: k in r.value <==>
      && AtOrBefore(current, end)
      && ValidMonth(k)
      && MonthNumber(MonthOf(current)) <= MonthNumber(k) <= MonthNumber(MonthOf(end))
    decreases MonthNumber(MonthOf(end)) - MonthNumber(MonthOf(current)) + 1
  {
    if !AtOrBefore(current, end) then Ok([])
    else
      var key := MonthOf(current);
      var next := NextMonth(key);
      MonthMonotone(current, end);
      if next.year > MaxYear then Err(YearOutOfRange)
      else
        var first: CalDate := Date(next.year, next.month, 1);
        FirstOfMonthAtOrBefore(next, end);
        match MonthKeys(first, end)
        case Err(e) => Err(e)
        case Ok(rest) =>
          WalkStep(current, end, next, rest);
          Ok([key] + rest)
  }

  /** Prepending the current month to the walk from the next month keeps it ascending and exact. */
  lemma WalkStep(current: CalDate, end: CalDate, next: YearMonth, rest: seq<YearMonth>)
    requires AtOrBefore(current, end)
    requires next == NextMonth(MonthOf(current))
    requires MonthNumber(MonthOf(current)) <= MonthNumber(MonthOf(end))
    requires Ascending(rest)
    requires forall k :: k in rest <==>
      && MonthNumber(next) <= MonthNumber(MonthOf(end))
      && ValidMonth(k)
      && MonthNumber(next) <= MonthNumber(k) <= MonthNumber(MonthOf(end))
    ensures Ascending([MonthOf(current)] + rest)
    ensures forall k :: k in [MonthOf(current)] + rest <==>
      && ValidMonth(k)
      && MonthNumber(MonthOf(current)) <= MonthNumber(k) <= MonthNumber(MonthOf(end))
  {
    var key := MonthOf(current);
    forall k | ValidMonth(k) && MonthNumber(k) == MonthNumber(key)
      ensures k == key
    {
      MonthNumberInjective(k, key);
    }
  }

  /** The month buckets present in the index for `keys`, concatenated in key order. */
  function GatherBuckets(dateIndex: map<YearMonth, seq<Record>>, keys: seq<YearMonth>): seq<Record>
  {
    if keys == [] then []
    else
      var init, last := keys[..|keys| - 1], keys[|keys| - 1];
      GatherBuckets(dateIndex, init) + (if last in dateIndex then dateIndex[last] else [])
  }

  /** The first stage: a given category that has an index bucket narrows to that bucket. */
  function Candidates(a: Account, category: Option<string>): seq<Record>
  {
    if Given(category) && category.value in a.categoryIndex then a.categoryIndex[category.value]
    else a.records
  }

  /**
   * `query_records(start_date, end_date, category)`. When both bounds are
   * given, the candidates are re-drawn from the global month index, so the
   * category has no effect in that case. The month keys come from a Python
   * `set`, whose iteration order is unspecified; the buckets are gathered here
   * in calendar order and every property of that case is stated up to order.
   */
  function Query(a: Account, from: Option<CalDate>, to: Option<CalDate>, category: Option<string>): (r: Result<seq<Record>, QueryError>)
    ensures r.Ok? ==> forall x | x in r.value :: Matches(x, InRange(from, to))
    ensures from.Some? && to.Some? && !AtOrBefore(from.value, to.value) ==> r == Ok([])
    ensures r.Err? <==>
      from.Some? && to.Some? && AtOrBefore(from.value, to.value) && MonthOf(to.value) == YearMonth(MaxYear, 12)
  {
    var candidates := Candidates(a, category);
    if from.None? && to.None? then
      assert forall x | x in candidates :: Matches(x, InRange(from, to));
      Ok(candidates)
    else if from.Some? && to.Some? then
      match MonthKeys(from.value, to.value)
      case Err(e) => Err(e)
      case Ok(keys) => Ok(Select(GatherBuckets(a.dateIndex, keys), InRange(from, to)))
    else
      Ok(Select(candidates, InRange(from, to)))
  }

  /** The records a category filter keeps: a given, recognised category narrows; anything else keeps all. */
  function Narrowed(rs: seq<Record>, category: Option<string>): seq<Record>
  {
    if Given(category) && Recognised(category.value) then Select(rs, InCategory(category.value)) else rs
  }

  /**
   * Without both bounds, a query is the record list narrowed by a recognised
   * category and then by the bounds, in list order. With no bounds at all this
   * is the narrowed list itself.
   */
  lemma QueryWithoutBothBounds(a: Account, from: Option<CalDate>, to: Option<CalDate>, category: Option<string>)
    requires Consistent(a)
    requires from.None? || to.None?
    ensures Query(a, from, to, category) == Ok(Select(Narrowed(a.records, category), InRange(from, to)))
    ensures from.None? && to.None? ==> Query(a, from, to, category) == Ok(Narrowed(a.records, category))
  {
    var candidates := Candidates(a, category);
    assert candidates == Narrowed(a.records, category);
    if from.None? && to.None? {
      SelectAll(candidates, InRange(from, to));
    }
  }

  /**
   * With both bounds, a successful query returns exactly the records of the
   * whole list that lie within the bounds, each as often as it occurs there,
   * whatever the category argument.
   */
  lemma QueryBothBounds(a: Account, from: CalDate, to: CalDate, category: Option<string>)
    requires Consistent(a)
    requires Query(a, Some(from), Some(to), category).Ok?
    ensures multiset(Query(a, Some(from), Some(to), category).value)
         == multiset(Select(a.records, InRange(Some(from), Some(to))))
  {
    var range := InRange(Some(from), Some(to));
    var keys := MonthKeys(from, to).value;
    var inRange := Select(a.records, range);
    calc {
      Select(GatherBuckets(a.dateIndex, keys), range);
      { GatherIsBuckets(a, keys); }
      Select(Buckets(a.records, keys), range);
      { BucketsSelect(a.records, keys, range); }
      Buckets(inRange, keys);
    }
    BucketsMultiset(inRange, keys);
    RangeWithinWalk(a.records, from, to);
    SelectAll(inRange, InMonths(KeySet(keys)));
  }

  /** Every record within the bounds lies in one of the months the walk visits. */
  lemma RangeWithinWalk(rs: seq<Record>, from: CalDate, to: CalDate)
    requires MonthKeys(from, to).Ok?
    ensures forall x | x in Select(rs, InRange(Some(from), Some(to))) :: Matches(x, InMonths(KeySet(MonthKeys(from, to).value)))
  {
    var keys := MonthKeys(from, to).value;
    forall x | x in Select(rs, InRange(Some(from), Some(to)))
      ensures MonthOf(x.date) in keys
    {
      MonthMonotone(from, x.date);
      MonthMonotone(x.date, to);
    }
  }

  /** Each month's records of `rs`, concatenated in the order of `keys`. */
  function Buckets(rs: seq<Record>, keys: seq<YearMonth>): seq<Record>
  {
    if keys == [] then []
    else
      var init, last := keys[..|keys| - 1], keys[|keys| - 1];
      Buckets(rs, init) + Select(rs, InMonth(last))
  }

  lemma {:induction false} GatherIsBuckets(a: Account, keys: seq<YearMonth>)
    requires Consistent(a)
    ensures GatherBuckets(a.dateIndex, keys) == Buckets(a.records, keys)
    decreases |keys|
  {
    if keys != [] {
      var last := keys[|keys| - 1];
      GatherIsBuckets(a, keys[..|keys| - 1]);
      if last !in a.dateIndex {
        NoRecordsOfMonth(a.records, last);
      }
    }
  }

  lemma {:induction false} BucketsSelect(rs: seq<Record>, keys: seq<YearMonth>, c: Criterion)
    ensures Select(Buckets(rs, keys), c) == Buckets(Select(rs, c), keys)
    decreases |keys|
  {
    if keys != [] {
      var init, last := keys[..|keys| - 1], keys[|keys| - 1];
      BucketsSelect(rs, init, c);
      SelectConcat(Buckets(rs, init), Select(rs, InMonth(last)), c);
      SelectCommutes(rs, InMonth(last), c);
    }
  }

  lemma {:induction false} BucketsMultiset(rs: seq<Record>, keys: seq<YearMonth>)
    requires Ascending(keys)
    ensures multiset(Buckets(rs, keys)) == multiset(Select(rs, InMonths(KeySet(keys))))
    decreases |keys|
  {
    if keys == [] {
      assert KeySet(keys) == {};
      SelectNone(rs, InMonths({}));
    } else {
      var init, last := keys[..|keys| - 1], keys[|keys| - 1];
      var ks := KeySet(init);
      AscendingSplit(keys);
      BucketsMultiset(rs, init);
      SelectMonthsSplit(rs, last, ks);
      calc {
        multiset(Buckets(rs, keys));
        multiset(Buckets(rs, init)) + multiset(Select(rs, InMonth(last)));
        multiset(Select(rs, InMonths(ks))) + multiset(Select(rs, InMonth(last)));
        multiset(Select(rs, InMonths(ks + {last})));
      }
    }
  }

  lemma AscendingSplit(keys: seq<YearMonth>)
    requires Ascending(keys) && keys != []
    ensures Ascending(keys[..|keys| - 1])
    ensures keys[|keys| - 1] !in KeySet(keys[..|keys| - 1])
    ensures KeySet(keys) == KeySet(keys[..|keys| - 1]) + {keys[|keys| - 1]}
  {
    var init, last := keys[..|keys| - 1], keys[|keys| - 1];
    assert keys == init + [last];
  }

  function KeySet(keys: seq<YearMonth>): set<YearMonth>
  {
    set k | k in keys
  }
}
