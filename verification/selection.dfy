/**
 * Order-preserving selection of records by one criterion. The month and
 * category indexes, the query filters and the totals are all stated in terms
 * of `Select`, so the laws below are proved once here.
 */
module Selection {
  import opened Results
  import opened Calendar
  import opened Records
  import opened Sequences

  datatype Criterion =
    | InMonth(key: YearMonth)
    | InMonths(keys: set<YearMonth>)
    | InCategory(category: string)
    | InRange(from: Option<CalDate>, to: Option<CalDate>)

  /** An absent bound constrains nothing; present bounds are inclusive. */
  predicate Matches(r: Record, c: Criterion)
  {
    match c
    case InMonth(k) => MonthOf(r.date) == k
    case InMonths(ks) => MonthOf(r.date) in ks
    case InCategory(cat) => r.category == cat
    case InRange(from, to) =>
      && (from.None? || AtOrBefore(from.value, r.date))
      && (to.None? || AtOrBefore(r.date, to.value))
  }

  /** The records of `rs` that match `c`, in their order in `rs`. */
  function Select(rs: seq<Record>, c: Criterion): (out: seq<Record>)
    ensures |out| <= |rs|
    ensures forall r :: r in out <==> r in rs && Matches(r, c)
  {
    if rs == [] then []
    else
      var init, last := rs[..|rs| - 1], rs[|rs| - 1];
      assert rs == init + [last];
      if Matches(last, c) then Select(init, c) + [last] else Select(init, c)
  }

  lemma SelectSnoc(rs: seq<Record>, r: Record, c: Criterion)
    ensures Select(rs + [r], c) == Select(rs, c) + (if Matches(r, c) then [r] else [])
  {
    assert (rs + [r])[..|rs|] == rs;
  }

  /** Selection distributes over concatenation. */
  lemma {:induction false} SelectConcat(a: seq<Record>, b: seq<Record>, c: Criterion)
    ensures Select(a + b, c) == Select(a, c) + Select(b, c)
    decreases |b|
  {
    if b == [] {
      assert a + b == a;
    } else {
      var init, last := b[..|b| - 1], b[|b| - 1];
      assert b == init + [last];
      assert a + b == (a + init) + [last];
      var tail := if Matches(last, c) then [last] else [];
      calc {
        Select(a + b, c);
        { SelectSnoc(a + init, last, c); }
        Select(a + init, c) + tail;
        { SelectConcat(a, init, c); }
        Select(a, c) + Select(init, c) + tail;
        { SelectSnoc(init, last, c); }
        Select(a, c) + Select(b, c);
      }
    }
  }

  /** Two selections may be applied in either order. */
  lemma {:induction false} SelectCommutes(rs: seq<Record>, c: Criterion, d: Criterion)
    ensures Select(Select(rs, c), d) == Select(Select(rs, d), c)
    decreases |rs|
  {
    if rs != [] {
      var init, last := rs[..|rs| - 1], rs[|rs| - 1];
      assert rs == init + [last];
      SelectCommutes(init, c, d);
      SelectSnoc(init, last, c);
      SelectSnoc(init, last, d);
      if Matches(last, c) {
        SelectSnoc(Select(init, c), last, d);
      }
      if Matches(last, d) {
        SelectSnoc(Select(init, d), last, c);
      }
    }
  }

  /** Selecting by a criterion every record meets returns the records unchanged. */
  lemma {:induction false} SelectAll(rs: seq<Record>, c: Criterion)
    requires forall r | r in rs :: Matches(r, c)
    ensures Select(rs, c) == rs
    decreases |rs|
  {
    if rs != [] {
      var init, last := rs[..|rs| - 1], rs[|rs| - 1];
      assert rs == init + [last];
      SelectAll(init, c);
    }
  }

  /** Selecting by a criterion no record meets returns nothing. */
  lemma {:induction false} SelectNone(rs: seq<Record>, c: Criterion)
    requires forall r | r in rs :: !Matches(r, c)
    ensures Select(rs, c) == []
    decreases |rs|
  {
    if rs != [] {
      var init, last := rs[..|rs| - 1], rs[|rs| - 1];
      assert rs == init + [last];
      SelectNone(init, c);
    }
  }

  /** Selecting one more, distinct month adds exactly that month's records to the multiset. */
  lemma {:induction false} SelectMonthsSplit(rs: seq<Record>, k: YearMonth, ks: set<YearMonth>)
    requires k !in ks
    ensures multiset(Select(rs, InMonths(ks + {k})))
         == multiset(Select(rs, InMonths(ks))) + multiset(Select(rs, InMonth(k)))
    decreases |rs|
  {
    if rs != [] {
      var init, last := rs[..|rs| - 1], rs[|rs| - 1];
      InitThenLast(rs);
      SelectMonthsSplit(init, k, ks);
      SelectSnoc(init, last, InMonths(ks + {k}));
      SelectSnoc(init, last, InMonths(ks));
      SelectSnoc(init, last, InMonth(k));
    }
  }
}
